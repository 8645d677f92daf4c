/** The statistical pass of `render` over the exponent matrix: finite exponents are split
    by sign into two lists of magnitudes, non-finite ones are counted, both lists are
    sorted, and the largest positive and most negative exponents bound the colouring. */
module Statistics {
  import opened Wrappers
  import opened LongDouble

  /** The rows of the matrix, concatenated top to bottom. */
  function Flatten(rows: seq<seq<Exp>>): seq<Exp>
  {
    if |rows| == 0 then [] else Flatten(rows[..|rows| - 1]) + rows[|rows| - 1]
  }

  /** The values of the finite exponents that are `>= 0`, in order. */
  function Positives(es: seq<Exp>): seq<real>
  {
    if |es| == 0 then []
    else Positives(es[..|es| - 1]) + (if IsFinite(es[|es| - 1]) && GeZero(es[|es| - 1]) then [es[|es| - 1].v] else [])
  }

  /** The magnitudes of the finite exponents that are `< 0`, in order. */
  function NegMagnitudes(es: seq<Exp>): seq<real>
  {
    if |es| == 0 then []
    else NegMagnitudes(es[..|es| - 1]) + (if IsFinite(es[|es| - 1]) && !GeZero(es[|es| - 1]) then [-es[|es| - 1].v] else [])
  }

  function Count(es: seq<Exp>, e: Exp): nat
  {
    if |es| == 0 then 0 else Count(es[..|es| - 1], e) + (if es[|es| - 1] == e then 1 else 0)
  }

  /** The outcome of the pass, before sorting. */
  datatype Stats = Stats(absPos: seq<real>, absNeg: seq<real>, posInfCount: nat, negInfCount: nat, nanCount: nat)

  function StatsOf(es: seq<Exp>): Stats
  {
    Stats(Positives(es), NegMagnitudes(es), Count(es, PosInf), Count(es, NegInf), Count(es, NaN))
  }

  // ----------------------------------------------------------------------------------
  // The pass

  /** One exponent filed into its bin. */
  function File(st: Stats, e: Exp): Stats
  {
    if IsFinite(e) then
      if GeZero(e) then st.(absPos := st.absPos + [e.v]) else st.(absNeg := st.absNeg + [-e.v])
    else if IsNaN(e) then st.(nanCount := st.nanCount + 1)
    else if GtZero(e) then st.(posInfCount := st.posInfCount + 1)
    else st.(negInfCount := st.negInfCount + 1)
  }

  lemma StatsOfSnoc(es: seq<Exp>, e: Exp)
    ensures StatsOf(es + [e]) == File(StatsOf(es), e)
  {
    assert (es + [e])[..|es|] == es;
  }

  /** The inner loop of the pass: one row's exponents filed left to right. */
  method FileRow(st: Stats, row: seq<Exp>, ghost before: seq<Exp>) returns (st': Stats)
    requires st == StatsOf(before)
    ensures st' == StatsOf(before + row)
  {
    st' := st;
    var x := 0;
    assert before + row[..x] == before;
    while x < |row|
      invariant 0 <= x <= |row|
      invariant st' == StatsOf(before + row[..x])
    {
      var e := row[x];
      StatsOfSnoc(before + row[..x], e);
      assert before + row[..x] + [e] == before + row[..x + 1];
      if IsFinite(e) {
        if GeZero(e) {
          st' := st'.(absPos := st'.absPos + [e.v]);
        } else {
          st' := st'.(absNeg := st'.absNeg + [-e.v]);
        }
      } else if IsNaN(e) {
        st' := st'.(nanCount := st'.nanCount + 1);
      } else {
        if GtZero(e) {
          st' := st'.(posInfCount := st'.posInfCount + 1);
        } else {
          st' := st'.(negInfCount := st'.negInfCount + 1);
        }
      }
      x := x + 1;
    }
    assert row[..x] == row;
  }

  /** The statistical pass over the matrix, row by row: its outcome is that of the
      exponents read in row-major order. */
  method BinExponents(rows: seq<seq<Exp>>) returns (st: Stats)
    ensures st == StatsOf(Flatten(rows))
  {
    st := Stats([], [], 0, 0, 0);
    var y := 0;
    while y < |rows|
      invariant 0 <= y <= |rows|
      invariant st == StatsOf(Flatten(rows[..y]))
    {
      assert rows[..y + 1][..y] == rows[..y];
      st := FileRow(st, rows[y], Flatten(rows[..y]));
      y := y + 1;
    }
    assert rows[..y] == rows;
  }

  // ----------------------------------------------------------------------------------
  // Properties of the bins

  /** Every exponent lands in exactly one bin: the bin sizes add up to the number of
      exponents, the positive bin holds values `>= 0` and the negative bin magnitudes
      `> 0`. */
  lemma {:induction false} BinsPartition(es: seq<Exp>)
    ensures |Positives(es)| + |NegMagnitudes(es)| + Count(es, PosInf) + Count(es, NegInf) + Count(es, NaN) == |es|
    ensures forall k :: 0 <= k < |Positives(es)| ==> Positives(es)[k] >= 0.0
    ensures forall k :: 0 <= k < |NegMagnitudes(es)| ==> NegMagnitudes(es)[k] > 0.0
  {
    if |es| > 0 {
      BinsPartition(es[..|es| - 1]);
    }
  }

  /** A value is in the positive bin exactly when some finite exponent `>= 0` has it. */
  lemma {:induction false} PositivesMembers(es: seq<Exp>, v: real)
    ensures v in Positives(es) <==> Fin(v) in es && v >= 0.0
  {
    if |es| > 0 {
      PositivesMembers(es[..|es| - 1], v);
      assert es == es[..|es| - 1] + [es[|es| - 1]];
    }
  }

  /** The magnitude of u is in the negative bin exactly when u is a finite exponent
      `< 0`. */
  lemma {:induction false} NegMagnitudesMembers(es: seq<Exp>, u: real)
    ensures -u in NegMagnitudes(es) <==> Fin(u) in es && u < 0.0
  {
    if |es| > 0 {
      NegMagnitudesMembers(es[..|es| - 1], u);
      assert es == es[..|es| - 1] + [es[|es| - 1]];
    }
  }

  lemma {:induction false} FlattenLength(rows: seq<seq<Exp>>, width: nat)
    requires forall y :: 0 <= y < |rows| ==> |rows[y]| == width
    ensures |Flatten(rows)| == |rows| * width
  {
    if |rows| > 0 {
      FlattenLength(rows[..|rows| - 1], width);
    }
  }

  /** Every cell of the matrix is among the flattened exponents. */
  lemma {:induction false} FlattenHolds(rows: seq<seq<Exp>>, y: nat, x: nat)
    requires y < |rows| && x < |rows[y]|
    ensures rows[y][x] in Flatten(rows)
  {
    var last := |rows| - 1;
    if y == last {
      assert Flatten(rows) == Flatten(rows[..last]) + rows[last];
      assert Flatten(rows)[|Flatten(rows[..last])| + x] == rows[y][x];
    } else {
      FlattenHolds(rows[..last], y, x);
      assert Flatten(rows) == Flatten(rows[..last]) + rows[last];
    }
  }

  /** Over a height x width matrix, the bins hold width * height exponents in all. */
  lemma MatrixBins(rows: seq<seq<Exp>>, width: nat)
    requires forall y :: 0 <= y < |rows| ==> |rows[y]| == width
    ensures var st := StatsOf(Flatten(rows));
            |st.absPos| + |st.absNeg| + st.posInfCount + st.negInfCount + st.nanCount == |rows| * width
  {
    FlattenLength(rows, width);
    BinsPartition(Flatten(rows));
  }

  // ----------------------------------------------------------------------------------
  // Sorting

  predicate Sorted(s: seq<real>)
  {
    forall i, j :: 0 <= i < j < |s| ==> s[i] <= s[j]
  }

  function Insert(x: real, s: seq<real>): (r: seq<real>)
    requires Sorted(s)
    ensures Sorted(r) && multiset(r) == multiset(s) + multiset{x}
  {
    if |s| == 0 then [x]
    else if x <= s[0] then [x] + s
    else
      assert s == [s[0]] + s[1..];
      var t := Insert(x, s[1..]);
      InsertBelow(s[0], x, s[1..], t);
      [s[0]] + t
  }

  /** A value no larger than x and than every element of s is no larger than any
      element of s with x inserted. */
  lemma InsertBelow(lo: real, x: real, s: seq<real>, t: seq<real>)
    requires lo <= x && forall k :: 0 <= k < |s| ==> lo <= s[k]
    requires multiset(t) == multiset(s) + multiset{x} && Sorted(t)
    ensures Sorted([lo] + t)
  {
    forall k | 0 <= k < |t|
      ensures lo <= t[k]
    {
      assert t[k] in multiset(t);
      if t[k] != x {
        assert t[k] in multiset(s);
      }
    }
  }

  /** `std::sort` on a list of magnitudes: ascending, and a permutation of its input. */
  function Sort(s: seq<real>): (r: seq<real>)
    ensures Sorted(r) && multiset(r) == multiset(s)
  {
    if |s| == 0 then []
    else
      assert s == s[..|s| - 1] + [s[|s| - 1]];
      Insert(s[|s| - 1], Sort(s[..|s| - 1]))
  }

  /** `.back()` of a sorted list; empty when the list is (where the C++ behaviour is
      undefined). */
  function Largest(s: seq<real>): (m: Option<real>)
    ensures m.None? <==> |s| == 0
    ensures m.Some? ==> m.value in s && forall v :: v in s ==> v <= m.value
  {
    var r := Sort(s);
    if |r| == 0 then None
    else
      LastIsMaximum(s, r);
      Some(r[|r| - 1])
  }

  /** The last element of a sorted permutation of s is a member of s and bounds it. */
  lemma LastIsMaximum(s: seq<real>, r: seq<real>)
    requires Sorted(r) && multiset(r) == multiset(s) && |r| > 0
    ensures r[|r| - 1] in s && forall v :: v in s ==> v <= r[|r| - 1]
  {
    assert r[|r| - 1] in multiset(r);
    forall v | v in s
      ensures v <= r[|r| - 1]
    {
      assert v in multiset(s);
      var i :| 0 <= i < |r| && r[i] == v;
    }
  }

  /** `max_pos`: the largest finite non-negative exponent, if there is one. */
  function MaxPos(st: Stats): Option<real>
  {
    Largest(st.absPos)
  }

  /** `min_neg`: the most negative finite exponent, if there is one. */
  function MinNeg(st: Stats): Option<real>
  {
    match Largest(st.absNeg)
    case None => None
    case Some(m) => Some(-m)
  }

  /** `max_pos` is the maximum of the finite exponents that are `>= 0`, and it is absent
      exactly when there are none. */
  lemma MaxPosIsMaximum(es: seq<Exp>)
    ensures MaxPos(StatsOf(es)).None? <==> forall v :: Fin(v) in es ==> v < 0.0
    ensures MaxPos(StatsOf(es)).Some? ==>
              var m := MaxPos(StatsOf(es)).value;
              Fin(m) in es && m >= 0.0 && forall v :: Fin(v) in es && v >= 0.0 ==> v <= m
  {
    var pos := Positives(es);
    var r := MaxPos(StatsOf(es));
    if r.None? {
      forall v | Fin(v) in es
        ensures v < 0.0
      {
        PositivesMembers(es, v);
      }
    } else {
      var m := r.value;
      PositivesMembers(es, m);
      forall v | Fin(v) in es && v >= 0.0
        ensures v <= m
      {
        PositivesMembers(es, v);
      }
      assert !(forall v :: Fin(v) in es ==> v < 0.0) by {
        assert Fin(m) in es;
      }
    }
  }

  /** No finite exponent is negative exactly when the negative bin is empty. */
  lemma NoNegatives(es: seq<Exp>)
    ensures |NegMagnitudes(es)| == 0 <==> forall v :: Fin(v) in es ==> v >= 0.0
  {
    if |NegMagnitudes(es)| == 0 {
      forall v | Fin(v) in es
        ensures v >= 0.0
      {
        NegMagnitudesMembers(es, v);
      }
    } else {
      var u := -NegMagnitudes(es)[0];
      NegMagnitudesMembers(es, u);
      assert Fin(u) in es;
    }
  }

  /** The negation of the largest magnitude is the smallest negative exponent. */
  lemma LargestMagnitude(es: seq<Exp>, mag: real)
    requires mag in NegMagnitudes(es) && forall w :: w in NegMagnitudes(es) ==> w <= mag
    ensures Fin(-mag) in es && -mag < 0.0
    ensures forall v :: Fin(v) in es && v < 0.0 ==> -mag <= v
  {
    NegMagnitudesMembers(es, -mag);
    forall v | Fin(v) in es && v < 0.0
      ensures -mag <= v
    {
      NegMagnitudesMembers(es, v);
    }
  }

  /** `min_neg` is the minimum of the finite exponents that are `< 0`, and it is absent
      exactly when there are none. */
  lemma MinNegIsMinimum(es: seq<Exp>)
    ensures MinNeg(StatsOf(es)).None? <==> forall v :: Fin(v) in es ==> v >= 0.0
    ensures MinNeg(StatsOf(es)).Some? ==>
              var m := MinNeg(StatsOf(es)).value;
              Fin(m) in es && m < 0.0 && forall v :: Fin(v) in es && v < 0.0 ==> m <= v
  {
    var r := Largest(NegMagnitudes(es));
    if r.None? {
      NoNegatives(es);
    } else {
      LargestMagnitude(es, r.value);
    }
  }
}
