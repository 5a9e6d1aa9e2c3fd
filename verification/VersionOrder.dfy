/** Exactly which strings lie on a cycle a < b < c < a of my_strverscmp, and transitivity for all others.

    More leading zeros make a run of digits smaller.  Among runs with equally many, only those with a zero in front and
    some other digit can form a cycle, and each of them does. */
module VersionOrder {
  import opened Bits
  import opened CStrings
  import opened VersionCompare

  /** A zero in front and some nonzero digit. */
  predicate PaddedNumber(d: string) { First(d) == '0' && exists i :: 0 <= i < |d| && d[i] != '0' }

  predicate HasPadded(ts: seq<Token>) { exists i :: 0 <= i < |ts| && ts[i].Run? && PaddedNumber(ts[i].digits) }

  /** No number in the string has a zero in front of a nonzero digit. */
  predicate Orderly(s: string) { !HasPadded(Tokens(s)) }

  predicate Cycle(a: string, b: string, c: string) {
    VersionCmp(a, b) < 0 && VersionCmp(b, c) < 0 && VersionCmp(c, a) < 0
  }

  // ---------- runs ----------

  function LeadingZeros(d: string): (n: nat)
    ensures n <= |d| && (forall i :: 0 <= i < n ==> d[i] == '0') && (n < |d| ==> d[n] != '0')
  {
    if First(d) == '0' then 1 + LeadingZeros(d[1..]) else 0
  }

  lemma {:induction false} CommonZerosIs(d: string, e: string)
    ensures CommonZeros(d, e) == if LeadingZeros(d) <= LeadingZeros(e) then LeadingZeros(d) else LeadingZeros(e)
  {
    if First(d) == '0' && First(e) == '0' {
      CommonZerosIs(d[1..], e[1..]);
    }
  }

  predicate IsRun(d: string) { d != "" && AllDigits(d) }

  lemma MoreZerosIsSmaller(d: string, e: string)
    requires IsRun(d) && IsRun(e) && LeadingZeros(d) > LeadingZeros(e)
    ensures RunCmp(d, e) < 0
  {
    CommonZerosIs(d, e);
    hide CommonZeros, LeadingZeros;
    if First(e) == '0' {
      assert LeadingZeros(e) < |e| ==> IsDigit(e[LeadingZeros(e)]);
    }
  }

  lemma {:induction false} StrCmpTransitive(a: string, b: string, c: string)
    requires StrCmp(a, b) < 0 && StrCmp(b, c) < 0
    ensures StrCmp(a, c) < 0
  {
    if a != "" && a[0] == b[0] == c[0] {
      StrCmpTransitive(a[1..], b[1..], c[1..]);
    }
  }

  lemma RunCycle(d: string, e: string, f: string)
    requires IsRun(d) && IsRun(e) && IsRun(f)
    requires RunCmp(d, e) < 0 && RunCmp(e, f) < 0 && RunCmp(f, d) < 0
    ensures PaddedNumber(d)
  {
    SameZeros(d, e, f);
    CommonZerosIs(d, e);
    hide CommonZeros, LeadingZeros, StrCmp;
    if LeadingZeros(d) == 0 {
      if StrCmp(d, e) < 0 && StrCmp(e, f) < 0 {
        StrCmpTransitive(d, e, f);
        StrCmpSwaps(d, f);
      }
    } else {
      assert d[LeadingZeros(d)..] != "";
      assert d[LeadingZeros(d)] != '0';
    }
  }

  lemma SameZeros(d: string, e: string, f: string)
    requires IsRun(d) && IsRun(e) && IsRun(f)
    requires RunCmp(d, e) < 0 && RunCmp(e, f) < 0 && RunCmp(f, d) < 0
    ensures LeadingZeros(d) == LeadingZeros(e) == LeadingZeros(f)
  {
    hide RunCmp, LeadingZeros;
    NotSmaller(d, e);
    NotSmaller(e, f);
    NotSmaller(f, d);
  }

  lemma NotSmaller(d: string, e: string)
    requires IsRun(d) && IsRun(e) && RunCmp(d, e) < 0
    ensures LeadingZeros(d) >= LeadingZeros(e)
  {
    hide RunCmp, LeadingZeros;
    RunCmpSwaps(d, e);
    if LeadingZeros(d) < LeadingZeros(e) {
      MoreZerosIsSmaller(e, d);
    }
  }

  // ---------- tokens and strings ----------

  lemma TokenCycle(s: Token, t: Token, u: Token)
    requires Single(s) && Single(t) && Single(u)
    requires TokenCmp(s, t) < 0 && TokenCmp(t, u) < 0 && TokenCmp(u, s) < 0
    ensures s.Run? && PaddedNumber(s.digits)
  {
    hide RunCmp, PaddedNumber;
    if s.Run? && t.Run? && u.Run? {
      RunCycle(s.digits, t.digits, u.digits);
    }
  }

  /** The first place where the three lists are not all equal holds a cycle of tokens. */
  lemma {:induction false} ListCycle(ss: seq<Token>, ts: seq<Token>, us: seq<Token>)
    requires Proper(ss) && Proper(ts) && Proper(us)
    requires Compare(ss, ts) < 0 && Compare(ts, us) < 0 && Compare(us, ss) < 0
    ensures HasPadded(ss)
    decreases |ss|
  {
    hide TokenCmp, PaddedNumber;
    var s, t, u := ss[0], ts[0], us[0];
    TokenCmpSwaps(s, t);
    TokenCmpSwaps(t, u);
    TokenCmpSwaps(u, s);
    if s == t == u {
      ListCycle(ss[1..], ts[1..], us[1..]);
      PaddedBehind(ss);
    } else {
      TokenCycle(s, t, u);
    }
  }

  lemma PaddedBehind(ss: seq<Token>)
    requires ss != [] && HasPadded(ss[1..])
    ensures HasPadded(ss)
  {
    hide PaddedNumber;
    var i :| 0 <= i < |ss[1..]| && ss[1..][i].Run? && PaddedNumber(ss[1..][i].digits);
    assert ss[i + 1] == ss[1..][i];
  }

  lemma CycleIsPadded(a: string, b: string, c: string)
    requires Cycle(a, b, c)
    ensures HasPadded(Tokens(a))
  {
    hide Compare, HasPadded, Proper;
    TokensAreProper(a);
    TokensAreProper(b);
    TokensAreProper(c);
    ListCycle(Tokens(a), Tokens(b), Tokens(c));
  }

  /** One orderly string among the three is enough. */
  lemma Transitive(a: string, b: string, c: string)
    requires Orderly(a) || Orderly(b) || Orderly(c)
    requires VersionCmp(a, b) <= 0 && VersionCmp(b, c) <= 0
    ensures VersionCmp(a, c) <= 0
  {
    hide VersionCmp, HasPadded;
    SwapNegates(a, b);
    SwapNegates(b, c);
    SwapNegates(a, c);
    if VersionCmp(a, c) > 0 {
      CycleIsPadded(a, b, c);
      CycleIsPadded(b, c, a);
      CycleIsPadded(c, a, b);
    }
  }

  // ---------- every padded number lies on a cycle ----------

  function Zeros(n: nat): (d: string)
    ensures |d| == n && forall i :: 0 <= i < n ==> d[i] == '0'
  {
    seq(n, _ => '0')
  }

  lemma {:induction false} ZerosInFront(p: string, u: string)
    requires (forall i :: 0 <= i < |p| ==> p[i] == '0') && u != "" && u[0] != '0'
    ensures LeadingZeros(p + u) == |p|
  {
    if p == "" {
      assert p + u == u;
    } else {
      assert (p + u)[1..] == p[1..] + u;
      ZerosInFront(p[1..], u);
    }
  }

  /** The comparison of what follows equally many zeros. */
  function TailCmp(u: string, v: string): int
    requires u != "" && v != ""
  {
    if u[0] != v[0] && |u| != |v| then Sign(|v| - |u|) else StrCmp(u, v)
  }

  lemma BehindSameZeros(p: string, u: string, v: string)
    requires p != "" && (forall i :: 0 <= i < |p| ==> p[i] == '0') && u != "" && v != "" && u[0] != '0' && v[0] != '0'
    ensures RunCmp(p + u, p + v) == TailCmp(u, v)
  {
    ZerosInFront(p, u);
    ZerosInFront(p, v);
    CommonZerosIs(p + u, p + v);
    hide CommonZeros, LeadingZeros, StrCmp;
    assert (p + u)[|p|..] == u && (p + v)[|p|..] == v;
  }

  lemma {:induction false} ShorterIsSmaller(u: string, v: string)
    requires v != ""
    ensures StrCmp(u, u + v) == -1
  {
    if u == "" {
      assert u + v == v;
    } else {
      assert (u + v)[1..] == u[1..] + v;
      ShorterIsSmaller(u[1..], v);
    }
  }

  /** What to put behind the zeros instead of u: u with a zero behind it, and then a larger or a shorter number. */
  lemma TailWitness(u: string) returns (w: string)
    requires IsRun(u) && u[0] != '0'
    ensures IsRun(w) && w[0] != '0' && TailCmp(u, u + "0") < 0 && TailCmp(u + "0", w) < 0 && TailCmp(w, u) < 0
  {
    ShorterIsSmaller(u, "0");
    w := if u[0] != '9' then [(u[0] as int + 1) as char] + Zeros(|u|) else "8" + Zeros(|u| - 1);
  }

  /** Two runs that close a cycle with d. */
  lemma RunWitnesses(d: string) returns (e: string, f: string)
    requires IsRun(d) && PaddedNumber(d)
    ensures IsRun(e) && IsRun(f) && RunCmp(d, e) < 0 && RunCmp(e, f) < 0 && RunCmp(f, d) < 0
  {
    var z := LeadingZeros(d);
    var p, u := d[..z], d[z..];
    assert d == p + u;
    hide RunCmp, LeadingZeros, TailCmp;
    var w := TailWitness(u);
    e, f := p + (u + "0"), p + w;
    BehindSameZeros(p, u, u + "0");
    BehindSameZeros(p, u + "0", w);
    BehindSameZeros(p, w, u);
  }

  lemma {:induction false} OneTokenDiffers(ss: seq<Token>, ts: seq<Token>, i: nat)
    requires Proper(ss) && Proper(ts) && i < |ss| == |ts| && ss[..i] == ts[..i] && TokenCmp(ss[i], ts[i]) != 0
    ensures Compare(ss, ts) == TokenCmp(ss[i], ts[i])
  {
    hide TokenCmp;
    if i > 0 {
      assert ss[0] == ss[..i][0] && ts[0] == ts[..i][0];
      TokenCmpSwaps(ss[0], ts[0]);
      assert ss[1..][..i - 1] == ss[..i][1..] && ts[1..][..i - 1] == ts[..i][1..];
      OneTokenDiffers(ss[1..], ts[1..], i - 1);
    }
  }

  predicate CleanTokens(ts: seq<Token>) { forall i :: 0 <= i < |ts| && ts[i].Char? ==> ts[i].c != '\0' }

  lemma {:induction false} TokensAreClean(s: string)
    requires Clean(s)
    ensures CleanTokens(Tokens(s))
    decreases |s|
  {
    if s != "" {
      assert s[0] in s;
      var n := if IsDigit(s[0]) then Span(s, true) else 1;
      TokensAreClean(s[n..]);
      assert Tokens(s)[1..] == Tokens(s[n..]);
    }
  }

  lemma {:induction false} TextIsClean(ts: seq<Token>)
    requires Proper(ts) && CleanTokens(ts)
    ensures Clean(Text(ts))
  {
    if ts != [] {
      TextIsClean(ts[1..]);
    }
  }

  /** The string with another run in place i. */
  lemma Replaced(a: string, i: nat, d: string) returns (b: string)
    requires Clean(a) && i < |Tokens(a)| && Tokens(a)[i].Run? && IsRun(d)
    ensures Clean(b) && Tokens(b) == Tokens(a)[i := Run(d)]
  {
    hide Tokens, Text;
    TokensAreProper(a);
    TokensAreSeparated(a);
    TokensAreClean(a);
    var ts := Tokens(a)[i := Run(d)];
    b := Text(ts);
    TokensOfText(ts);
    TextIsClean(ts);
  }

  /** A string lies on a cycle exactly when some number in it has a zero in front and a nonzero digit. */
  lemma OnCycleExactlyWhen(a: string)
    requires Clean(a)
    ensures (exists b, c :: Clean(b) && Clean(c) && Cycle(a, b, c)) <==> HasPadded(Tokens(a))
  {
    hide Tokens, Compare, TokenCmp, PaddedNumber, Proper;
    if HasPadded(Tokens(a)) {
      var ts := Tokens(a);
      TokensAreProper(a);
      var i :| 0 <= i < |ts| && ts[i].Run? && PaddedNumber(ts[i].digits);
      RunInPlace(ts, i);
      var e, f := RunWitnesses(ts[i].digits);
      var b := Replaced(a, i, e);
      var c := Replaced(a, i, f);
      TokensAreProper(b);
      TokensAreProper(c);
      RunsAreTokens(ts[i].digits, e, f);
      OneTokenDiffers(ts, Tokens(b), i);
      OneTokenDiffers(Tokens(b), Tokens(c), i);
      OneTokenDiffers(Tokens(c), ts, i);
      assert Cycle(a, b, c);
    }
    if b, c :| Clean(b) && Clean(c) && Cycle(a, b, c) {
      CycleIsPadded(a, b, c);
    }
  }

  lemma RunInPlace(ts: seq<Token>, i: nat)
    requires Proper(ts) && i < |ts| && ts[i].Run?
    ensures IsRun(ts[i].digits)
  {
  }

  lemma RunsAreTokens(d: string, e: string, f: string)
    ensures TokenCmp(Run(d), Run(e)) == RunCmp(d, e) && TokenCmp(Run(e), Run(f)) == RunCmp(e, f)
    ensures TokenCmp(Run(f), Run(d)) == RunCmp(f, d)
  {
    hide RunCmp;
  }

  // ---------- what a version check means ----------

  /** A library accepts every version below an accepted one exactly when no number in its own version has a zero in
      front of a nonzero digit. */
  lemma AcceptsSmallerExactlyWhen(own: string)
    requires Clean(own)
    ensures
      (forall a, b :: Clean(a) && Clean(b) && VersionCmp(a, b) <= 0 && VersionCmp(b, own) <= 0 ==>
         VersionCmp(a, own) <= 0)
      <==> Orderly(own)
  {
    hide VersionCmp, HasPadded;
    OnCycleExactlyWhen(own);
    if Orderly(own) {
      forall a, b | Clean(a) && Clean(b) && VersionCmp(a, b) <= 0 && VersionCmp(b, own) <= 0
        ensures VersionCmp(a, own) <= 0
      {
        Transitive(a, b, own);
      }
    } else {
      var b, c :| Clean(b) && Clean(c) && Cycle(own, b, c);
      SwapNegates(own, b);
      assert VersionCmp(b, c) <= 0 && VersionCmp(c, own) <= 0 && VersionCmp(b, own) > 0;
    }
  }

  /** So a library whose version is a dotted number does. */
  lemma DottedAcceptsSmaller(own: seq<nat>, a: string, b: string)
    requires own != [] && VersionCmp(a, b) <= 0 && VersionCmp(b, Dotted(own)) <= 0
    ensures VersionCmp(a, Dotted(own)) <= 0
  {
    hide VersionCmp, Tokens, AllCanonical;
    TokensOfDotted(own);
    UnpaddedIsOrderly(Dotted(own));
    Transitive(a, b, Dotted(own));
  }

  /** Strings without padded numbers lie on no cycle. */
  lemma UnpaddedIsOrderly(a: string)
    requires Unpadded(a)
    ensures Orderly(a)
  {
    hide Tokens;
    var ts := Tokens(a);
    forall i | 0 <= i < |ts| && ts[i].Run?
      ensures !PaddedNumber(ts[i].digits)
    {
      assert Canonical(ts[i].digits);
    }
  }
}
