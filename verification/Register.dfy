/** A feedback shift register of any width as a remainder computer over GF(2). */
module Register {
  import opened GF2

  /** One turn: multiply by x and reduce by x^|g| + g. */
  function Turn(g: Poly, s: Poly): (r: Poly)
    requires |s| == |g| > 0
    ensures |r| == |g|
  {
    Xor(s[1..] + [false], Scale(s[0], g))
  }

  function Turns(g: Poly, k: nat, s: Poly): (r: Poly)
    requires |s| == |g| > 0
    ensures |r| == |g|
  {
    if k == 0 then s else Turns(g, k - 1, Turn(g, s))
  }

  function Feed(g: Poly, s: Poly, b: bool): (r: Poly)
    requires |s| == |g| > 0
    ensures |r| == |g|
  {
    Turn(g, [s[0] != b] + s[1..])
  }

  function FeedBits(g: Poly, s: Poly, bits: Poly): (r: Poly)
    requires |s| == |g| > 0
    ensures |r| == |g|
    decreases |bits|
  {
    if bits == [] then s else FeedBits(g, Feed(g, s, bits[0]), bits[1..])
  }

  lemma {:induction false} FeedAppend(g: Poly, s: Poly, a: Poly, b: Poly)
    requires |s| == |g| > 0
    ensures FeedBits(g, s, a + b) == FeedBits(g, FeedBits(g, s, a), b)
    decreases |a|
  {
    if a == [] {
      assert a + b == b;
    } else {
      assert (a + b)[1..] == a[1..] + b;
      FeedAppend(g, Feed(g, s, a[0]), a[1..], b);
    }
  }

  lemma TurnSplits(g: Poly, s: Poly, w: Poly)
    requires |s| == |w| == |g| > 0
    ensures Turn(g, Xor(s, w)) == Xor(Feed(g, s, w[0]), w[1..] + [false])
  {
  }

  /** Xoring k bits in at once and turning k times is feeding them one by one. */
  lemma {:induction false} TurnsAreFeeds(g: Poly, k: nat, s: Poly, w: Poly)
    requires |s| == |w| == |g| > 0 && k <= |g|
    ensures Turns(g, k, Xor(s, w)) == Xor(FeedBits(g, s, w[..k]), w[k..] + Zero(k))
    decreases k
  {
    if k == 0 {
      assert w[0..] + Zero(0) == w;
    } else {
      var w' := w[1..] + [false];
      TurnSplits(g, s, w);
      TurnsAreFeeds(g, k - 1, Feed(g, s, w[0]), w');
      WindowSlides(w, k);
      assert FeedBits(g, s, w[..k]) == FeedBits(g, Feed(g, s, w[0]), w'[..k - 1]);
    }
  }

  lemma WindowSlides(w: Poly, k: nat)
    requires 0 < k <= |w|
    ensures var w' := w[1..] + [false];
      w'[..k - 1] == w[..k][1..] && w'[k - 1..] + Zero(k - 1) == w[k..] + Zero(k)
  {
  }

  // Division with remainder.

  function Quotient(g: Poly, m: Poly): (q: Poly)
    requires |g| > 0
    ensures |q| == |m|
    decreases |m|
  {
    if m == [] then []
    else
      var n := |m| - 1;
      Quotient(g, m[..n]) + [FeedBits(g, Zero(|g|), m[..n])[0] != m[n]]
  }

  lemma FeedOne(g: Poly, s: Poly, b: bool)
    requires |s| == |g| > 0
    ensures FeedBits(g, s, [b]) == Feed(g, s, b)
  {
    assert FeedBits(g, Feed(g, s, b), []) == Feed(g, s, b);
  }

  lemma FeedLast(g: Poly, s: Poly, front: Poly, b: bool)
    requires |s| == |g| > 0
    ensures FeedBits(g, s, front + [b]) == Feed(g, FeedBits(g, s, front), b)
  {
    FeedAppend(g, s, front, [b]);
    FeedOne(g, FeedBits(g, s, front), b);
  }

  lemma DivisionEmpty(g: Poly)
    requires |g| > 0
    ensures IsDivision([], [true] + g, [], Zero(|g|))
  {
  }

  /** Feeding a message leaves the remainder of m(x) * x^d divided by x^d + g. */
  lemma {:induction false} FeedDivides(g: Poly, m: Poly)
    requires |g| > 0
    ensures IsDivision(m, [true] + g, Quotient(g, m), FeedBits(g, Zero(|g|), m))
    decreases |m|
  {
    if m == [] {
      DivisionEmpty(g);
    } else {
      var front, b := m[..|m| - 1], m[|m| - 1];
      FeedDivides(g, front);
      FeedLast(g, Zero(|g|), front, b);
      DivisionStep(g, front, Quotient(g, front), FeedBits(g, Zero(|g|), front), b);
      assert front + [b] == m;
    }
  }

  lemma MulLast(q: Poly, t: bool, h: Poly)
    requires |h| > 0
    ensures Mul(q + [t], h) == Xor(Mul(q, h) + [false], Zero(|q|) + Scale(t, h))
  {
    assert (q + [t])[..|q|] == q;
  }

  lemma SumAt(p: Poly, z: nat, t: bool, h: Poly, r: Poly, j: nat)
    requires |p| + 1 == z + |h| && r == Xor(p + [false], Zero(z) + Scale(t, h)) && j <= |p|
    ensures r[j] == ((j < |p| && p[j]) != (j >= z && t && h[j - z]))
  {
  }

  lemma MulExtend(q: Poly, t: bool, h: Poly, j: nat)
    requires |h| > 1 && j < |q| + |h|
    ensures Mul(q + [t], h)[j] == ((j < |q| + |h| - 1 && Mul(q, h)[j]) != (j >= |q| && t && h[j - |q|]))
  {
    MulLast(q, t, h);
    SumAt(Mul(q, h), |q|, t, h, Mul(q + [t], h), j);
  }

  lemma DivisionAt(g: Poly, m: Poly, q: Poly, s: Poly, j: nat)
    requires |s| == |g| > 0 && IsDivision(m, [true] + g, q, s) && j < |m| + |g|
    ensures (j < |m| && m[j]) == (Mul(q, [true] + g)[j] != (j >= |m| && s[j - |m|]))
  {
    assert Xor(Mul(q, [true] + g), Zero(|m|) + s)[j] == (m + Zero(|g|))[j];
  }

  lemma FeedAt(g: Poly, s: Poly, b: bool, i: nat)
    requires |s| == |g| > 0 && i < |g|
    ensures Feed(g, s, b)[i] == ((i < |g| - 1 && s[i + 1]) != ((s[0] != b) && g[i]))
  {
  }

  lemma DivisionStepAt(g: Poly, m: Poly, q: Poly, s: Poly, b: bool, j: nat)
    requires |s| == |g| > 0 && IsDivision(m, [true] + g, q, s) && j < |m| + 1 + |g|
    ensures (j <= |m| && (m + [b])[j])
         == (Mul(q + [s[0] != b], [true] + g)[j] != (j > |m| && Feed(g, s, b)[j - |m| - 1]))
  {
    MulExtend(q, s[0] != b, [true] + g, j);
    if j < |m| + |g| {
      DivisionAt(g, m, q, s, j);
    }
    if j > |m| {
      FeedAt(g, s, b, j - |m| - 1);
    }
  }

  lemma DivisionStep(g: Poly, m: Poly, q: Poly, s: Poly, b: bool)
    requires |s| == |g| > 0 && IsDivision(m, [true] + g, q, s)
    ensures IsDivision(m + [b], [true] + g, q + [s[0] != b], Feed(g, s, b))
  {
    var n := |m| + 1;
    var lhs := m + [b] + Zero(|g|);
    var rhs := Xor(Mul(q + [s[0] != b], [true] + g), Zero(n) + Feed(g, s, b));
    forall j | 0 <= j < n + |g|
      ensures lhs[j] == rhs[j]
    {
      DivisionStepAt(g, m, q, s, b, j);
    }
    assert lhs == rhs;
  }

  /** r is a remainder of m(x) * x^d exactly when it is what the register holds. */
  lemma RemainderIff(g: Poly, m: Poly, r: Poly)
    requires |r| == |g| > 0
    ensures HasRemainder(m, [true] + g, r) <==> r == FeedBits(g, Zero(|g|), m)
  {
    FeedDivides(g, m);
    if q :| IsDivision(m, [true] + g, q, r) {
      DivisionUnique(m, [true] + g, q, r, Quotient(g, m), FeedBits(g, Zero(|g|), m));
    }
  }

  // Linearity.

  lemma TurnXor(g: Poly, s: Poly, t: Poly)
    requires |s| == |t| == |g| > 0
    ensures Turn(g, Xor(s, t)) == Xor(Turn(g, s), Turn(g, t))
  {
  }

  lemma {:induction false} FeedXor(g: Poly, s: Poly, t: Poly, a: Poly, b: Poly)
    requires |s| == |t| == |g| > 0 && |a| == |b|
    ensures FeedBits(g, Xor(s, t), Xor(a, b)) == Xor(FeedBits(g, s, a), FeedBits(g, t, b))
    decreases |a|
  {
    if a != [] {
      var s', t' := [s[0] != a[0]] + s[1..], [t[0] != b[0]] + t[1..];
      var u := Xor(s, t);
      assert [u[0] != Xor(a, b)[0]] + u[1..] == Xor(s', t');
      TurnXor(g, s', t');
      assert Xor(a, b)[1..] == Xor(a[1..], b[1..]);
      FeedXor(g, Feed(g, s, a[0]), Feed(g, t, b[0]), a[1..], b[1..]);
    }
  }

  // A constant term makes every turn invertible, so short bursts show.

  function Unturn(g: Poly, s: Poly): (r: Poly)
    requires |s| == |g| > 0
    ensures |r| == |g|
  {
    var n, b := |g| - 1, s[|g| - 1];
    [b] + Xor(s, Scale(b, g))[..n]
  }

  lemma TurnBijective(g: Poly, s: Poly)
    requires |s| == |g| > 0 && g[|g| - 1]
    ensures Unturn(g, Turn(g, s)) == s && Turn(g, Unturn(g, s)) == s
  {
    var u := Unturn(g, s);
    assert Xor(s, Scale(u[0], g))[|g| - 1] == false;
    assert u[1..] + [false] == Xor(s, Scale(u[0], g));
  }

  lemma TurnNonzero(g: Poly, s: Poly)
    requires |s| == |g| > 0 && g[|g| - 1] && s != Zero(|g|)
    ensures Turn(g, s) != Zero(|g|)
  {
    var i :| 0 <= i < |g| && s[i];
    assert Turn(g, s)[if s[0] then |g| - 1 else i - 1];
  }

  lemma {:induction false} TurnsNonzero(g: Poly, k: nat, s: Poly)
    requires |s| == |g| > 0 && g[|g| - 1] && s != Zero(|g|)
    ensures Turns(g, k, s) != Zero(|g|)
    decreases k
  {
    if k > 0 {
      TurnNonzero(g, s);
      TurnsNonzero(g, k - 1, Turn(g, s));
    }
  }

  lemma {:induction false} FeedZeros(g: Poly, k: nat, s: Poly)
    requires |s| == |g| > 0
    ensures FeedBits(g, s, Zero(k)) == Turns(g, k, s)
    ensures s == Zero(|g|) ==> FeedBits(g, s, Zero(k)) == s
    decreases k
  {
    if k > 0 {
      assert Zero(k)[1..] == Zero(k - 1);
      assert [s[0] != false] + s[1..] == s;
      assert s == Zero(|g|) ==> Turn(g, s) == s;
      FeedZeros(g, k - 1, Turn(g, s));
    }
  }

  lemma XorZero(s: Poly)
    ensures Xor(s, Zero(|s|)) == s && Xor(Zero(|s|), s) == s
  {
  }

  lemma WholeSlices(v: Poly)
    ensures v[..|v|] == v && v[|v|..] + Zero(|v|) == Zero(|v|)
  {
  }

  /** d bits fed into an empty register are d turns of a full one. */
  lemma FullWindow(g: Poly, v: Poly)
    requires |v| == |g| > 0
    ensures FeedBits(g, Zero(|g|), v) == Turns(g, |g|, v)
  {
    TurnsAreFeeds(g, |v|, Zero(|v|), v);
    XorZero(v);
    WholeSlices(v);
    XorZero(FeedBits(g, Zero(|g|), v));
  }

  lemma PaddedNonzero(k: nat, w: Poly)
    requires w != Zero(|w|)
    ensures Zero(k) + w != Zero(k + |w|)
  {
    assert (Zero(k) + w)[k..] == w;
    assert Zero(k + |w|)[k..] == Zero(|w|);
  }

  lemma WindowNonzero(g: Poly, w: Poly)
    requires |w| <= |g| && |g| > 0 && g[|g| - 1] && w != Zero(|w|)
    ensures FeedBits(g, Zero(|g|), w) != Zero(|g|)
  {
    var pad := |g| - |w|;
    FeedZeros(g, pad, Zero(|g|));
    FeedAppend(g, Zero(|g|), Zero(pad), w);
    PaddedNonzero(pad, w);
    FullWindow(g, Zero(pad) + w);
    TurnsNonzero(g, |g|, Zero(pad) + w);
  }

  ghost predicate DifferOnlyIn(a: Poly, b: Poly, lo: nat, hi: nat)
    requires |a| == |b|
  {
    forall i | 0 <= i < |a| && !(lo <= i < hi) :: a[i] == b[i]
  }

  lemma BurstNonzero(g: Poly, lo: nat, w: Poly, tail: nat)
    requires |w| <= |g| && |g| > 0 && g[|g| - 1] && w != Zero(|w|)
    ensures FeedBits(g, Zero(|g|), Zero(lo) + (w + Zero(tail))) != Zero(|g|)
  {
    var z := Zero(|g|);
    FeedAppend(g, z, Zero(lo), w + Zero(tail));
    FeedZeros(g, lo, z);
    FeedAppend(g, z, w, Zero(tail));
    WindowNonzero(g, w);
    FeedZeros(g, tail, FeedBits(g, z, w));
    TurnsNonzero(g, tail, FeedBits(g, z, w));
  }

  lemma XorZeroIff(a: Poly, b: Poly)
    requires |a| == |b|
    ensures a == b <==> Xor(a, b) == Zero(|a|)
  {
    if Xor(a, b) == Zero(|a|) {
      forall i | 0 <= i < |a|
        ensures a[i] == b[i]
      {
        assert !Xor(a, b)[i];
      }
    }
  }

  lemma FeedDifference(g: Poly, a: Poly, b: Poly)
    requires |g| > 0 && |a| == |b|
    ensures FeedBits(g, Zero(|g|), a) == FeedBits(g, Zero(|g|), b)
       <==> FeedBits(g, Zero(|g|), Xor(a, b)) == Zero(|g|)
  {
    var z := Zero(|g|);
    FeedXor(g, z, z, a, b);
    XorZero(z);
    XorZeroIff(FeedBits(g, z, a), FeedBits(g, z, b));
  }

  lemma CutBurst(d: Poly, lo: nat, hi: nat)
    requires lo <= hi <= |d| && d != Zero(|d|)
    requires forall i | 0 <= i < |d| && !(lo <= i < hi) :: !d[i]
    ensures d == Zero(lo) + (d[lo..hi] + Zero(|d| - hi)) && d[lo..hi] != Zero(hi - lo)
  {
    var i :| 0 <= i < |d| && d[i];
    assert d[lo..hi][i - lo];
  }

  lemma BurstSeen(g: Poly, d: Poly, lo: nat, hi: nat)
    requires |g| > 0 && g[|g| - 1] && d != Zero(|d|)
    requires lo <= hi <= |d| && hi - lo <= |g|
    requires forall i | 0 <= i < |d| && !(lo <= i < hi) :: !d[i]
    ensures FeedBits(g, Zero(|g|), d) != Zero(|g|)
  {
    CutBurst(d, lo, hi);
    BurstNonzero(g, lo, d[lo..hi], |d| - hi);
  }

  /** With a constant term, messages that differ only within |g| consecutive bits never collide. */
  lemma BurstDetected(g: Poly, a: Poly, b: Poly, lo: nat)
    requires |g| > 0 && g[|g| - 1] && |a| == |b| && a != b
    requires DifferOnlyIn(a, b, lo, lo + |g|)
    ensures FeedBits(g, Zero(|g|), a) != FeedBits(g, Zero(|g|), b)
  {
    XorZeroIff(a, b);
    var i :| 0 <= i < |a| && a[i] != b[i];
    BurstSeen(g, Xor(a, b), lo, if lo + |g| <= |a| then lo + |g| else |a|);
    FeedDifference(g, a, b);
  }

  /** Two messages collide exactly when x^d + g divides their difference. */
  lemma CollisionIff(g: Poly, a: Poly, b: Poly)
    requires |g| > 0 && |a| == |b|
    ensures FeedBits(g, Zero(|g|), a) == FeedBits(g, Zero(|g|), b)
       <==> HasRemainder(Xor(a, b), [true] + g, Zero(|g|))
  {
    FeedDifference(g, a, b);
    RemainderIff(g, Xor(a, b), Zero(|g|));
  }

  // A generator with an even number of terms keeps parity.

  function Parity(s: Poly): bool {
    if s == [] then false else Parity(s[..|s| - 1]) != s[|s| - 1]
  }

  lemma {:induction false} ParityXor(a: Poly, b: Poly)
    requires |a| == |b|
    ensures Parity(Xor(a, b)) == (Parity(a) != Parity(b))
  {
    if a != [] {
      var n := |a| - 1;
      assert Xor(a, b)[..n] == Xor(a[..n], b[..n]);
      ParityXor(a[..n], b[..n]);
    }
  }

  lemma {:induction false} ParityAppend(a: Poly, b: Poly)
    ensures Parity(a + b) == (Parity(a) != Parity(b))
  {
    if b == [] {
      assert a + b == a;
    } else {
      var n := |b| - 1;
      assert (a + b)[..|a| + n] == a + b[..n];
      ParityAppend(a, b[..n]);
    }
  }

  lemma {:induction false} ParityZero(n: nat)
    ensures !Parity(Zero(n))
  {
    if n > 0 {
      assert Zero(n)[..n - 1] == Zero(n - 1);
      ParityZero(n - 1);
    }
  }

  lemma TurnKeepsParity(g: Poly, s: Poly)
    requires |s| == |g| > 0 && Parity(g)
    ensures Parity(Turn(g, s)) == Parity(s)
  {
    ParityXor(s[1..] + [false], Scale(s[0], g));
    ParityAppend(s[1..], [false]);
    assert Parity([false]) == false && Parity([s[0]]) == s[0];
    ParityAppend([s[0]], s[1..]);
    assert [s[0]] + s[1..] == s;
    ParityZero(|g|);
  }

  lemma ParityFirst(s: Poly)
    requires s != []
    ensures Parity(s) == (s[0] != Parity(s[1..]))
  {
    assert s == [s[0]] + s[1..];
    ParityAppend([s[0]], s[1..]);
    assert Parity([s[0]]) == s[0];
  }

  lemma {:induction false} FeedParity(g: Poly, s: Poly, bits: Poly)
    requires |s| == |g| > 0 && Parity(g)
    ensures Parity(FeedBits(g, s, bits)) == (Parity(s) != Parity(bits))
    decreases |bits|
  {
    if bits != [] {
      var s' := [s[0] != bits[0]] + s[1..];
      ParityFirst(s);
      ParityFirst(s');
      assert s'[1..] == s[1..];
      ParityFirst(bits);
      TurnKeepsParity(g, s');
      FeedParity(g, Feed(g, s, bits[0]), bits[1..]);
    }
  }
}
