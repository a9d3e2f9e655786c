/** Panel resizing (crates/sentinel-cli/src/tui_resize.rs): splits in percent, borders in cells. */
module Resize {

  const U16_MAX: nat := 0xFFFF
  const MIN_PCT: nat := 10

  type U16 = n: nat | n <= U16_MAX

  datatype Axis = Vertical | Horizontal

  datatype DragTarget = DragTarget(axis: Axis, boundary: nat)

  function Sum(s: seq<nat>): nat {
    if s == [] then 0 else Sum(s[..|s| - 1]) + s[|s| - 1]
  }

  function Clamp(x: int, low: int, high: int): int {
    if x < low then low else if x > high then high else x
  }

  /** Whether both segments around `boundary` exist and can keep the minimum. */
  predicate Movable(s: seq<nat>, boundary: nat, min: nat) {
    boundary + 1 < |s| && s[boundary] + s[boundary + 1] >= 2 * min
  }

  /** Where the cut ends up: the request, kept `min` away from both ends of the pair. */
  function Landing(s: seq<nat>, boundary: nat, cut: nat, min: nat): nat
    requires Movable(s, boundary, min)
  {
    var before := Sum(s[..boundary]);
    Clamp(cut, before + min, before + s[boundary] + s[boundary + 1] - min)
  }

  function CutSegments(s: seq<nat>, boundary: nat, cut: nat, min: nat): seq<nat> {
    if !Movable(s, boundary, min) then s
    else
      var first := Landing(s, boundary, cut, min) - Sum(s[..boundary]);
      s[boundary := first][boundary + 1 := s[boundary] + s[boundary + 1] - first]
  }

  /** Whether every sum that a cut makes fits its 16 bits. */
  predicate CutFits(s: seq<nat>, boundary: nat, min: nat) {
    boundary + 1 < |s| ==>
      var before, pairSum := Sum(s[..boundary]), s[boundary] + s[boundary + 1];
      && before <= U16_MAX && pairSum <= U16_MAX && 2 * min <= U16_MAX
      && (pairSum >= 2 * min ==> before + pairSum <= U16_MAX)
  }

  lemma SmallTotalFits(s: seq<nat>, boundary: nat, min: nat)
    requires Sum(s) <= U16_MAX && 2 * min <= U16_MAX
    ensures CutFits(s, boundary, min)
  {
    if boundary + 1 < |s| {
      PairFits(s, boundary);
    }
  }

  /** `set_cut`. It gives up where a sum leaves 16 bits, which is where a checked build stops. */
  method SetCut(a: array<nat>, boundary: nat, cut: nat, min: nat) returns (fits: bool)
    modifies a
    ensures fits <==> CutFits(old(a[..]), boundary, min)
    ensures a[..] == if fits then CutSegments(old(a[..]), boundary, cut, min) else old(a[..])
  {
    if boundary + 1 >= a.Length {
      return true;
    }
    var before := 0;
    for i := 0 to boundary
      invariant before == Sum(a[..i])
    {
      assert a[..i + 1][..i] == a[..i];
      before := before + a[i];
    }
    var pairSum := a[boundary] + a[boundary + 1];
    assert a[..][..boundary] == a[..boundary];
    if before > U16_MAX || pairSum > U16_MAX || 2 * min > U16_MAX {
      return false;
    }
    if pairSum < 2 * min {
      return true;
    }
    if before + pairSum > U16_MAX {
      return false;
    }
    var cut' := Clamp(cut, before + min, before + pairSum - min);
    a[boundary] := cut' - before;
    a[boundary + 1] := pairSum - a[boundary];
    return true;
  }

  lemma {:induction false} SumAppends(s: seq<nat>, t: seq<nat>)
    ensures Sum(s + t) == Sum(s) + Sum(t)
  {
    if t == [] {
      assert s + t == s;
    } else {
      var n := |t| - 1;
      SumAppends(s, t[..n]);
      assert (s + t)[..|s + t| - 1] == s + t[..n];
    }
  }

  lemma PairFits(s: seq<nat>, boundary: nat)
    requires boundary + 1 < |s|
    ensures Sum(s) == Sum(s[..boundary]) + s[boundary] + s[boundary + 1] + Sum(s[boundary + 2..])
    ensures Sum(s[..boundary + 1]) == Sum(s[..boundary]) + s[boundary]
    ensures Sum(s[..boundary + 2]) == Sum(s[..boundary]) + s[boundary] + s[boundary + 1]
  {
    assert s[..boundary + 1][..boundary] == s[..boundary];
    assert s[..boundary + 2][..boundary + 1] == s[..boundary + 1];
    SumAppends(s[..boundary + 2], s[boundary + 2..]);
    assert s == s[..boundary + 2] + s[boundary + 2..];
  }

  lemma CutSplits(s: seq<nat>, m: nat, j: nat)
    requires m <= j <= |s|
    ensures Sum(s[..j]) == Sum(s[..m]) + Sum(s[m..][..j - m])
  {
    assert s[..j] == s[..m] + s[m..][..j - m];
    SumAppends(s[..m], s[m..][..j - m]);
  }

  lemma OtherCutsStay(s: seq<nat>, t: seq<nat>, boundary: nat, j: nat)
    requires boundary + 1 < |s| == |t| && j <= |s| && j != boundary + 1
    requires t[..boundary] == s[..boundary] && t[boundary + 2..] == s[boundary + 2..]
    requires s[boundary] + s[boundary + 1] == t[boundary] + t[boundary + 1]
    ensures Sum(t[..j]) == Sum(s[..j])
  {
    if j <= boundary {
      assert t[..j] == t[..boundary][..j] && s[..j] == s[..boundary][..j];
    } else {
      var m := boundary + 2;
      PairFits(s, boundary);
      PairFits(t, boundary);
      CutSplits(s, m, j);
      CutSplits(t, m, j);
    }
  }

  /** A cut moves one border: the total, the other segments and every other cumulative cut stay, both
      touched segments keep the minimum, and the border lands on the clamped request. */
  lemma {:induction false} CutMovesOneBorder(s: seq<nat>, boundary: nat, cut: nat, min: nat)
    ensures var t := CutSegments(s, boundary, cut, min);
            && |t| == |s| && Sum(t) == Sum(s)
            && (forall k :: 0 <= k < |s| && k != boundary && k != boundary + 1 ==> t[k] == s[k])
            && (forall j :: 0 <= j <= |s| && j != boundary + 1 ==> Sum(t[..j]) == Sum(s[..j]))
            && (Movable(s, boundary, min) ==>
                  && t[boundary] >= min && t[boundary + 1] >= min
                  && Sum(t[..boundary + 1]) == Landing(s, boundary, cut, min))
            && (!Movable(s, boundary, min) ==> t == s)
  {
    var t := CutSegments(s, boundary, cut, min);
    if Movable(s, boundary, min) {
      assert t[..boundary] == s[..boundary] && t[boundary + 2..] == s[boundary + 2..];
      PairFits(t, boundary);
      forall j | 0 <= j <= |s| && j != boundary + 1 { OtherCutsStay(s, t, boundary, j); }
      assert s[..|s|] == s && t[..|t|] == t;
    }
  }

  /** What a split array is in every reachable state of the interface. */
  ghost predicate Split(s: seq<nat>) {
    Sum(s) == 100 && forall k :: 0 <= k < |s| ==> s[k] >= MIN_PCT
  }

  lemma {:induction false} CutKeepsSplit(s: seq<nat>, boundary: nat, cut: nat)
    requires Split(s)
    ensures Split(CutSegments(s, boundary, cut, MIN_PCT))
  {
    CutMovesOneBorder(s, boundary, cut, MIN_PCT);
  }

  // ----- cells

  /** Cell of a border; an out-of-range boundary answers the origin. */
  function BoundaryCell(s: seq<nat>, boundary: nat, start: nat, len: U16): nat {
    if boundary >= |s| then start
    else
      var offset := len * Sum(s[..boundary + 1]) / 100;
      start + (if offset <= U16_MAX then offset else len)
  }

  function PosToPct(pos: nat, start: nat, len: nat): nat {
    if len == 0 then 0
    else
      var rel := if pos >= start then pos - start else 0;
      var pct := rel * 100 / len;
      if pct <= 100 then pct else 100
  }

  predicate Near(a: nat, b: nat) { a <= b + 1 && b <= a + 1 }

  predicate InRange(v: nat, start: nat, len: nat) {
    v >= start && v < (if start + len <= U16_MAX then start + len else U16_MAX)
  }

  function CeilDiv(n: nat, d: nat): nat
    requires d > 0
  {
    (n + d - 1) / d
  }

  lemma {:induction false} LessTimes(p: nat, q: nat, d: nat)
    ensures p < q ==> p * d + d <= q * d
    decreases q
  {
    if p < q {
      assert q * d == (q - 1) * d + d;
      LessTimes(p, q - 1, d);
    }
  }

  lemma DivUnique(n: nat, d: nat, q: nat)
    requires d > 0 && q * d <= n < q * d + d
    ensures n / d == q
  {
    DivisionRemainder(n, d);
    LessTimes(n / d, q, d);
    LessTimes(q, n / d, d);
  }

  lemma DivisionRemainder(n: nat, d: nat)
    requires d > 0
    ensures n == (n / d) * d + n % d && n % d < d
  {
  }

  lemma ExactLoss(n: nat, k: nat, a: nat)
    requires a > 0 && k * a >= n
    ensures CeilDiv(n, a) <= k && (k * a - n) / a == k - CeilDiv(n, a)
  {
    var c := CeilDiv(n, a);
    DivisionRemainder(n + a - 1, a);
    assert c * a >= n && c * a < n + a;
    LessTimes(k, c, a);
    assert (k - c) * a == k * a - c * a;
    DivUnique(k * a - n, a, k - c);
  }

  /** Scaling by a/b and back, rounding down both times, loses exactly the first remainder over a, rounded
      up. */
  lemma {:induction false} RoundTripLoss(a: nat, b: nat, x: nat)
    requires a > 0 && b > 0
    ensures CeilDiv((a * x) % b, a) <= x
    ensures (b * ((a * x) / b)) / a == x - CeilDiv((a * x) % b, a)
  {
    DivisionRemainder(a * x, b);
    var m := (a * x) % b;
    assert b * ((a * x) / b) == a * x - m;
    assert x * a == a * x;
    assert m <= x * a;
    ExactLoss(m, x, a);
  }

  /** A drag puts the border at the cursor or before it, by an amount the cursor's offset decides exactly.
      The border stays grabbable from the cursor's cell exactly when that remainder is at most 100, which
      every container of at most 101 cells ensures. */
  lemma {:induction false} DragFollowsCursor(s: seq<nat>, boundary: nat, start: nat, len: U16, pos: nat)
    requires len > 0 && start <= pos <= start + len
    requires Movable(s, boundary, MIN_PCT)
    requires Landing(s, boundary, PosToPct(pos, start, len), MIN_PCT) == PosToPct(pos, start, len)
    ensures var t := CutSegments(s, boundary, PosToPct(pos, start, len), MIN_PCT);
            var border := BoundaryCell(t, boundary, start, len);
            var remainder := (100 * (pos - start)) % len;
            && border == pos - CeilDiv(remainder, 100)
            && pos - CeilDiv(len - 1, 100) <= border <= pos
            && (Near(pos, border) <==> remainder <= 100)
            && (len <= 101 ==> Near(pos, border))
  {
    var r := pos - start;
    var pct := (100 * r) / len;
    assert r * 100 == 100 * r;
    RatioAtMost100(r, len);
    CutMovesOneBorder(s, boundary, pct, MIN_PCT);
    RoundTripLoss(100, len, r);
    DivisionRemainder(100 * r, len);
    assert len * pct / 100 == r - CeilDiv((100 * r) % len, 100);
  }

  lemma RatioAtMost100(r: nat, len: nat)
    requires len > 0 && r <= len
    ensures (100 * r) / len <= 100
  {
    DivisionRemainder(100 * r, len);
    LessTimes(100, (100 * r) / len, len);
  }

  /** Past 101 cells a drag can leave its border two cells behind the cursor. */
  lemma {:induction false} WideContainersLoseTheBorder()
    ensures var t := CutSegments([50, 50], 0, PosToPct(69, 0, 103), MIN_PCT);
            t == [66, 34] && BoundaryCell(t, 0, 0, 103) == 67 && !Near(69, 67)
  {
    assert Sum([50, 50][..0]) == 0;
    assert PosToPct(69, 0, 103) == 66;
    var t := [66, 34];
    assert t[..1][..0] == [] && t[..1] == [66];
    assert CutSegments([50, 50], 0, 66, MIN_PCT) == t;
  }

  /** The percentage read at a drawn border: the cut itself, less what rounding to cells lost. */
  lemma {:induction false} BorderReadsBack(s: seq<nat>, boundary: nat, start: nat, len: U16)
    requires len > 0 && boundary < |s| && Sum(s[..boundary + 1]) <= 100
    ensures var cut := Sum(s[..boundary + 1]);
            var read := PosToPct(BoundaryCell(s, boundary, start, len), start, len);
            && read == cut - CeilDiv((len * cut) % 100, len)
            && cut - CeilDiv(99, len) <= read <= cut
  {
    CellOfCut(len, Sum(s[..boundary + 1]));
  }

  lemma CellInside(len: nat, cut: nat)
    requires cut <= 100
    ensures len * cut <= 100 * len
  {
    LessTimes(cut, 100, len);
    assert len * cut == cut * len;
  }

  lemma CellOfCut(len: U16, cut: nat)
    requires len > 0 && cut <= 100
    ensures var offset := len * cut / 100;
            && offset <= len
            && offset * 100 / len == cut - CeilDiv((len * cut) % 100, len)
            && CeilDiv((len * cut) % 100, len) <= CeilDiv(99, len)
            && CeilDiv((len * cut) % 100, len) <= cut
  {
    CellInside(len, cut);
    CeilDivMonotone((len * cut) % 100, 99, len);
    RoundTripLoss(len, 100, cut);
  }

  lemma CeilDivMonotone(m: nat, n: nat, d: nat)
    requires d > 0 && m <= n
    ensures CeilDiv(m, d) <= CeilDiv(n, d)
  {
    DivisionRemainder(m + d - 1, d);
    DivisionRemainder(n + d - 1, d);
    LessTimes(CeilDiv(n, d), CeilDiv(m, d), d);
  }

  // ----- the arithmetic, told by its results

  /** Where a cut lands: on the request, unless that leaves one of the two segments under the minimum; then as
      far as it can go. */
  lemma {:induction false} LandsWhereAsked(s: seq<nat>, boundary: nat, cut: nat, min: nat)
    requires Movable(s, boundary, min)
    ensures var before, pairSum := Sum(s[..boundary]), s[boundary] + s[boundary + 1];
            var t := CutSegments(s, boundary, cut, min);
            && Sum(t[..boundary + 1]) == before + t[boundary]
            && (before + min <= cut <= before + pairSum - min ==> t[boundary] == cut - before)
            && (cut < before + min ==> t[boundary] == min)
            && (cut > before + pairSum - min ==> t[boundary + 1] == min)
            && t[boundary] + t[boundary + 1] == pairSum
  {
    var t := CutSegments(s, boundary, cut, min);
    PairFits(t, boundary);
    assert t[..boundary] == s[..boundary];
  }

  /** The percentage of a cell: nothing left of the container, the whole right of it, in between the largest
      whole percentage that is not past the cell. */
  lemma {:induction false} PercentIff(pos: nat, start: nat, len: nat)
    ensures var pct := PosToPct(pos, start, len);
            && pct <= 100
            && (len == 0 || pos <= start ==> pct == 0)
            && (len > 0 && pos >= start + len ==> pct == 100)
            && (len > 0 && start <= pos <= start + len ==> pct * len <= 100 * (pos - start) < pct * len + len)
  {
    if len > 0 && pos >= start {
      PercentOfOffset(pos - start, len);
    }
  }

  lemma PercentOfOffset(rel: nat, len: nat)
    requires len > 0
    ensures rel <= len ==> rel * 100 / len <= 100
    ensures rel >= len ==> rel * 100 / len >= 100
    ensures (rel * 100 / len) * len <= 100 * rel < (rel * 100 / len) * len + len
  {
    DivisionRemainder(rel * 100, len);
    LessTimes(100, rel * 100 / len, len);
    LessTimes(rel * 100 / len, 100, len);
  }

  /** The cell of a border: the last one not past its share of the container. */
  lemma {:induction false} BoundaryCellIff(s: seq<nat>, boundary: nat, start: nat, len: U16)
    requires boundary < |s| && Sum(s[..boundary + 1]) <= 100
    ensures var offset := BoundaryCell(s, boundary, start, len) - start;
            0 <= offset <= len && 100 * offset <= len * Sum(s[..boundary + 1]) < 100 * offset + 100
  {
    CellInside(len, Sum(s[..boundary + 1]));
    DivisionRemainder(len * Sum(s[..boundary + 1]), 100);
  }
}
