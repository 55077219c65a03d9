/**
  Dotted keys: the sample key of the offline cache (OfflineCachePolicy.cpp) and the point id of the
  PC side (ModelConverter.cpp) both join their parts with '.'.
 */
module DottedKeys {

  // ---------- std::to_string ----------

  const DIGITS := "0123456789"

  function Natural(n: nat): (s: string)
    ensures s != "" && forall i :: 0 <= i < |s| ==> s[i] in DIGITS
  {
    if n < 10 then [DIGITS[n]] else Natural(n / 10) + [DIGITS[n % 10]]
  }

  function Decimal(n: int): string {
    if n < 0 then "-" + Natural(-n) else Natural(n)
  }

  lemma {:induction false} NaturalInjective(a: nat, b: nat)
    requires Natural(a) == Natural(b)
    ensures a == b
  {
    var s, t := Natural(a), Natural(b);
    assert (a >= 10 <==> |s| >= 2) && (b >= 10 <==> |t| >= 2);
    assert DIGITS[a % 10] == s[|s| - 1] == t[|t| - 1] == DIGITS[b % 10];
    DigitsDistinct(a % 10, b % 10);
    if a >= 10 {
      assert Natural(a / 10) == s[..|s| - 1] == t[..|t| - 1] == Natural(b / 10);
      NaturalInjective(a / 10, b / 10);
    }
  }

  lemma DigitsDistinct(i: nat, j: nat)
    requires i < 10 && j < 10 && DIGITS[i] == DIGITS[j]
    ensures i == j
  {
  }

  lemma DecimalInjective(a: int, b: int)
    requires Decimal(a) == Decimal(b)
    ensures a == b
  {
    assert (Decimal(a)[0] == '-' <==> a < 0) && (Decimal(b)[0] == '-' <==> b < 0);
    if a < 0 {
      assert Natural(-a) == Decimal(a)[1..] == Decimal(b)[1..] == Natural(-b);
      NaturalInjective(-a, -b);
    } else {
      NaturalInjective(a, b);
    }
  }

  /** Decimal text holds neither separator. */
  lemma DecimalPlain(n: int)
    ensures '.' !in Decimal(n) && ':' !in Decimal(n)
  {
    assert '.' !in DIGITS && ':' !in DIGITS;
  }

  // ---------- Joining with dots ----------

  predicate DotFree(s: string) {
    '.' !in s
  }

  lemma FirstUnique(c: char, s: string, i: nat, j: nat)
    requires i < |s| && j < |s| && s[i] == s[j] == c
    requires c !in s[..i] && c !in s[..j]
    ensures i == j
  {
    assert forall k :: 0 <= k < i ==> s[k] in s[..i];
    assert forall k :: 0 <= k < j ==> s[k] in s[..j];
  }

  /** Two texts with a separator-free first part before a separator have the same parts. */
  lemma SplitAt(c: char, a: string, b: string, x: string, y: string)
    requires c !in a && c !in b && a + [c] + x == b + [c] + y
    ensures a == b && x == y
  {
    var s, t := a + [c] + x, b + [c] + y;
    FirstUnique(c, s, |a|, |b|) by {
      assert forall i :: 0 <= i < |a| ==> s[i] == a[i];
      assert forall i :: 0 <= i < |b| ==> t[i] == b[i];
    }
    assert a == s[..|a|] == t[..|a|] == b;
    assert x == s[|a| + 1..] == t[|a| + 1..] == y;
  }

  function SampleKey(gatewayId: string, portId: string, deviceId: int, pointKey: string): string {
    gatewayId + "." + (portId + "." + (Decimal(deviceId) + "." + pointKey))
  }

  function PointId(factoryId: string, areaId: string, gatewayId: string, portId: string, deviceId: int,
                     pointKey: string): string {
    factoryId + "." + (areaId + "." + SampleKey(gatewayId, portId, deviceId, pointKey))
  }

  /** Different points have different sample keys when gateway and port ids hold no dot; the point
      key may hold any. */
  lemma SampleKeyInjective(g: string, p: string, d: int, k: string, g': string, p': string, d': int, k': string)
    requires DotFree(g) && DotFree(p) && DotFree(g') && DotFree(p')
    requires SampleKey(g, p, d, k) == SampleKey(g', p', d', k')
    ensures g == g' && p == p' && d == d' && k == k'
  {
    SplitAt('.', g, g', p + "." + (Decimal(d) + "." + k), p' + "." + (Decimal(d') + "." + k'));
    SplitAt('.', p, p', Decimal(d) + "." + k, Decimal(d') + "." + k');
    DecimalPlain(d);
    DecimalPlain(d');
    SplitAt('.', Decimal(d), Decimal(d'), k, k');
    DecimalInjective(d, d');
  }

  lemma PointIdInjective(f: string, a: string, g: string, p: string, d: int, k: string,
                         f': string, a': string, g': string, p': string, d': int, k': string)
    requires DotFree(f) && DotFree(a) && DotFree(g) && DotFree(p)
    requires DotFree(f') && DotFree(a') && DotFree(g') && DotFree(p')
    requires PointId(f, a, g, p, d, k) == PointId(f', a', g', p', d', k')
    ensures f == f' && a == a' && g == g' && p == p' && d == d' && k == k'
  {
    SplitAt('.', f, f', a + "." + SampleKey(g, p, d, k), a' + "." + SampleKey(g', p', d', k'));
    SplitAt('.', a, a', SampleKey(g, p, d, k), SampleKey(g', p', d', k'));
    SampleKeyInjective(g, p, d, k, g', p', d', k');
  }

  /** A dot inside an id lets two different points share a key. */
  lemma {:induction false} DotsCollide(g: string, p: string, q: string, d: int, k: string)
    ensures SampleKey(g + "." + p, q, d, k) == SampleKey(g, p + "." + q, d, k)
    ensures g + "." + p != g
  {
    var rest := Decimal(d) + "." + k;
    MoveDot(g, p, q + "." + rest);
    MoveDot(p, q, rest);
    assert |g + "." + p| > |g|;
  }

  lemma MoveDot(x: string, y: string, rest: string)
    ensures (x + "." + y) + "." + rest == x + "." + (y + "." + rest)
  {
  }

  function Dots(s: string): nat {
    if s == "" then 0 else Dots(s[..|s| - 1]) + if s[|s| - 1] == '.' then 1 else 0
  }

  lemma {:induction false} DotsAdd(a: string, b: string)
    ensures Dots(a + b) == Dots(a) + Dots(b)
  {
    if b == "" {
      assert a + b == a;
    } else {
      var n := |b| - 1;
      assert (a + b)[..|a + b| - 1] == a + b[..n];
      DotsAdd(a, b[..n]);
    }
  }

  lemma DotsJoin(a: string, rest: string)
    ensures Dots(a + "." + rest) == Dots(a) + 1 + Dots(rest)
  {
    DotsAdd(a + ".", rest);
    DotsAdd(a, ".");
    assert "."[..0] == "" && Dots(".") == 1;
  }

  lemma {:induction false} NoDots(s: string)
    ensures Dots(s) == 0 <==> DotFree(s)
  {
    if s != "" {
      NoDots(s[..|s| - 1]);
      assert s == s[..|s| - 1] + [s[|s| - 1]];
    }
  }

  lemma SampleKeyDots(g: string, p: string, d: int, k: string)
    ensures Dots(SampleKey(g, p, d, k)) == Dots(g) + Dots(p) + 2 + Dots(Decimal(d) + "." + k)
  {
    DotsJoin(g, p + "." + (Decimal(d) + "." + k));
    DotsJoin(p, Decimal(d) + "." + k);
  }

  /** A text with a dot is two texts around it. */
  lemma AtDot(s: string) returns (x: string, y: string)
    requires !DotFree(s)
    ensures s == x + "." + y && |x| < |s| && |y| < |s|
  {
    var i :| 0 <= i < |s| && s[i] == '.';
    x, y := s[..i], s[i + 1..];
  }

  /** A sample key tells its gateway and port from all others if and only if both ids are dot-free. */
  lemma SampleKeyUniqueIff(g: string, p: string, d: int, k: string)
    ensures (forall g', p' :: SampleKey(g', p', d, k) == SampleKey(g, p, d, k) ==> g' == g && p' == p)
       <==> DotFree(g) && DotFree(p)
  {
    if DotFree(g) && DotFree(p) {
      forall g', p' | SampleKey(g', p', d, k) == SampleKey(g, p, d, k)
        ensures g' == g && p' == p
      {
        SampleKeyDots(g, p, d, k);
        SampleKeyDots(g', p', d, k);
        NoDots(g);
        NoDots(p);
        NoDots(g');
        NoDots(p');
        SampleKeyInjective(g', p', d, k, g, p, d, k);
      }
    } else if !DotFree(g) {
      var x, y := AtDot(g);
      DotsCollide(x, y, p, d, k);
    } else {
      var x, y := AtDot(p);
      DotsCollide(g, x, y, d, k);
    }
  }

  lemma PointIdDots(f: string, a: string, g: string, p: string, d: int, k: string)
    ensures Dots(PointId(f, a, g, p, d, k)) == Dots(f) + Dots(a) + Dots(g) + Dots(p) + 4 + Dots(Decimal(d) + "." + k)
  {
    DotsJoin(f, a + "." + SampleKey(g, p, d, k));
    DotsJoin(a, SampleKey(g, p, d, k));
    SampleKeyDots(g, p, d, k);
  }

  /** With a dot in one of its four ids a point shares its id with another one. */
  lemma PointIdsCollide(f: string, a: string, g: string, p: string, d: int, k: string)
    requires !(DotFree(f) && DotFree(a) && DotFree(g) && DotFree(p))
    ensures exists f', a', g', p' ::
              PointId(f', a', g', p', d, k) == PointId(f, a, g, p, d, k) && (f', a', g', p') != (f, a, g, p)
  {
    var key, rest := SampleKey(g, p, d, k), Decimal(d) + "." + k;
    if !DotFree(f) {
      var x, y := AtDot(f);
      MoveDot(x, y, a + "." + key);
      MoveDot(y, a, key);
      assert PointId(x, y + "." + a, g, p, d, k) == PointId(f, a, g, p, d, k);
    } else if !DotFree(a) {
      var x, y := AtDot(a);
      MoveDot(f, x, y + "." + key);
      MoveDot(x, y, key);
      assert PointId(f + "." + x, y, g, p, d, k) == PointId(f, a, g, p, d, k) && y != a;
    } else if !DotFree(g) {
      var x, y := AtDot(g);
      MoveDot(a, x, y + "." + (p + "." + rest));
      MoveDot(x, y, p + "." + rest);
      assert PointId(f, a + "." + x, y, p, d, k) == PointId(f, a, g, p, d, k) && y != g;
    } else {
      var x, y := AtDot(p);
      DotsCollide(g, x, y, d, k);
      assert PointId(f, a, g + "." + x, y, d, k) == PointId(f, a, g, p, d, k) && y != p;
    }
  }

  /** A point id tells its factory, area, gateway and port from all others if and only if the four ids
      are dot-free. */
  lemma PointIdUniqueIff(f: string, a: string, g: string, p: string, d: int, k: string)
    ensures (forall f', a', g', p' ::
               PointId(f', a', g', p', d, k) == PointId(f, a, g, p, d, k) ==> (f', a', g', p') == (f, a, g, p))
       <==> DotFree(f) && DotFree(a) && DotFree(g) && DotFree(p)
  {
    if DotFree(f) && DotFree(a) && DotFree(g) && DotFree(p) {
      forall f', a', g', p' | PointId(f', a', g', p', d, k) == PointId(f, a, g, p, d, k)
        ensures (f', a', g', p') == (f, a, g, p)
      {
        SameDots(f, a, g, p, f', a', g', p', d, k);
        PointIdInjective(f', a', g', p', d, k, f, a, g, p, d, k);
      }
    } else {
      PointIdsCollide(f, a, g, p, d, k);
    }
  }

  lemma SameDots(f: string, a: string, g: string, p: string, f': string, a': string, g': string, p': string,
                 d: int, k: string)
    requires PointId(f', a', g', p', d, k) == PointId(f, a, g, p, d, k)
    requires DotFree(f) && DotFree(a) && DotFree(g) && DotFree(p)
    ensures DotFree(f') && DotFree(a') && DotFree(g') && DotFree(p')
  {
    PointIdDots(f, a, g, p, d, k);
    PointIdDots(f', a', g', p', d, k);
    NoDots(f);
    NoDots(a);
    NoDots(g);
    NoDots(p);
    NoDots(f');
    NoDots(a');
    NoDots(g');
    NoDots(p');
  }
}
