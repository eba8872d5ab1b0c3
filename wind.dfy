/** The decision rules of wind_regression in misc.py: which range bins of a
    Doppler-lidar scan are fitted at all (the line-of-sight gate), and how a
    fitted bin's coefficients are blanked when their standard errors are too
    large before the six-value result row is stored. The least-squares fit
    itself is a parameter. */
module WindRegression {

  /** A float64 as far as these rules look at it. */
  datatype Num = Finite(v: real) | PosInf | NegInf | NaN

  /** IEEE `a > b`: false whenever either side is NaN. */
  predicate Greater(a: Num, b: Num) {
    match (a, b)
    case (NaN, _) => false
    case (_, NaN) => false
    case (PosInf, PosInf) => false
    case (PosInf, _) => true
    case (NegInf, _) => false
    case (Finite(_), PosInf) => false
    case (Finite(_), NegInf) => true
    case (Finite(x), Finite(y)) => x > y
  }

  /** Unary minus; NaN stays NaN. */
  function Neg(a: Num): (r: Num)
    ensures r.NaN? <==> a.NaN?
  {
    match a
    case Finite(x) => Finite(-x)
    case PosInf => NegInf
    case NegInf => PosInf
    case NaN => NaN
  }

  /** -column: the regression target of one range bin (line 217). */
  function Negated(col: seq<Num>): (r: seq<Num>)
    ensures |r| == |col| && forall i :: 0 <= i < |col| ==> r[i] == Neg(col[i])
  {
    seq(|col|, i requires 0 <= i < |col| => Neg(col[i]))
  }

  // ---------------------------------------------------------------------
  // The line-of-sight gate

  /** los[notnan].unique(): the distinct line-of-sight ids of the rows
      where `y` is not NaN. */
  function ObservedLos(los: seq<int>, y: seq<Num>): set<int>
    requires |y| == |los|
  {
    set i | 0 <= i < |los| && !y[i].NaN? :: los[i]
  }

  /** Lines 222-228: fewer than three distinct ids skip the bin; exactly
      three skip it unless one of them is 0 or 2 and one is 1 or 3; four or
      more are always fitted. */
  predicate Fitted(u: set<int>) {
    if |u| < 3 then false
    else if |u| == 3 then !((0 !in u && 2 !in u) || (1 !in u && 3 !in u))
    else true
  }

  /** The pointing direction of each beam (lines 204-211): beams 0-3 at
      azimuth 0, 90, 180 and 270 degrees and a common elevation of 75
      degrees, beam 4 vertical. Each axis is rescaled by a positive factor
      (1/cos 75 for x and y, 1/sin 75 for z), and beam 4's vector, which
      becomes (0, 0, 1/sin 75), is rescaled again by sin 75; neither step
      changes which triples are linearly independent. */
  datatype Vec = Vec(x: int, y: int, z: int)

  function Dir(l: int): Vec
    requires 0 <= l <= 4
  {
    if l == 0 then Vec(0, 1, 1)
    else if l == 1 then Vec(1, 0, 1)
    else if l == 2 then Vec(0, -1, 1)
    else if l == 3 then Vec(-1, 0, 1)
    else Vec(0, 0, 1)
  }

  function Det3(a: Vec, b: Vec, c: Vec): int {
    a.x * (b.y * c.z - b.z * c.y) - a.y * (b.x * c.z - b.z * c.x) + a.z * (b.x * c.y - b.y * c.x)
  }

  /** Every id in `u` is one of the five beams. */
  predicate Beams(u: set<int>) {
    forall l :: l in u ==> 0 <= l <= 4
  }

  /** The beams in `u` determine all three wind components: three of them
      are linearly independent, so the design matrix has full column rank. */
  ghost predicate Spans(u: set<int>)
    requires Beams(u)
  {
    exists a, b, c :: a in u && b in u && c in u && Det3(Dir(a), Dir(b), Dir(c)) != 0
  }

  lemma {:induction false} SubsetCard(u: set<int>, v: set<int>)
    requires u <= v
    ensures |u| <= |v|
  {
    assert v == u + (v - u);
    assert u * (v - u) == {};
  }

  /** A beam from each horizontal pair and any third beam are independent. */
  lemma {:induction false} CrossPairSpans(a: int, b: int, c: int)
    requires a == 0 || a == 2
    requires b == 1 || b == 3
    requires 0 <= c <= 4 && c != a && c != b
    ensures Det3(Dir(a), Dir(b), Dir(c)) != 0
  {
  }

  /** Beams that all lie in one vertical plane, or that repeat, are
      dependent. */
  lemma {:induction false} DependentBeams(a: int, b: int, c: int)
    requires 0 <= a <= 4 && 0 <= b <= 4 && 0 <= c <= 4
    requires (Dir(a).x == 0 && Dir(b).x == 0 && Dir(c).x == 0)
          || (Dir(a).y == 0 && Dir(b).y == 0 && Dir(c).y == 0)
          || a == b || b == c || a == c
    ensures Det3(Dir(a), Dir(b), Dir(c)) == 0
  {
  }

  /** Without both beams of a pair, at most the other three remain. */
  lemma {:induction false} WithoutPair(u: set<int>, p: int, q: int, rest: set<int>)
    requires Beams(u) && p !in u && q !in u
    requires forall l :: 0 <= l <= 4 && l != p && l != q ==> l in rest
    ensures |u| <= |rest|
  {
    forall l | l in u
      ensures l in rest
    {
    }
    SubsetCard(u, rest);
  }

  /** Three or more beams include one besides any two. */
  lemma {:induction false} ThirdBeam(u: set<int>, a: int, b: int)
    requires |u| >= 3
    ensures exists c :: c in u && c != a && c != b
  {
    if forall c :: c in u ==> c == a || c == b {
      assert u <= {a, b};
      SubsetCard(u, {a, b});
    }
  }

  /** A fitted bin has a beam of each horizontal pair and a third beam,
      which are independent. */
  lemma {:induction false} FittedSpans(u: set<int>)
    requires Beams(u) && Fitted(u)
    ensures Spans(u)
  {
    if 0 !in u && 2 !in u {
      WithoutPair(u, 0, 2, {1, 3, 4});
    }
    if 1 !in u && 3 !in u {
      WithoutPair(u, 1, 3, {0, 2, 4});
    }
    var a := if 0 in u then 0 else 2;
    var b := if 1 in u then 1 else 3;
    ThirdBeam(u, a, b);
    var c :| c in u && c != a && c != b;
    CrossPairSpans(a, b, c);
    assert a in u && b in u && c in u && Det3(Dir(a), Dir(b), Dir(c)) != 0;
  }

  /** Three independent beams are three distinct beams, not all in one
      vertical plane: the gate lets such a bin through. */
  lemma {:induction false} SpansFitted(u: set<int>)
    requires Beams(u) && Spans(u)
    ensures Fitted(u)
  {
    var a, b, c :| a in u && b in u && c in u && Det3(Dir(a), Dir(b), Dir(c)) != 0;
    IndependentBeams(a, b, c);
    CrossBeamsFitted(u, a, b, c);
  }

  /** Independent beams are distinct, and one of them is beam 0 or 2 and
      one is beam 1 or 3. */
  lemma {:induction false} IndependentBeams(a: int, b: int, c: int)
    requires 0 <= a <= 4 && 0 <= b <= 4 && 0 <= c <= 4
    requires Det3(Dir(a), Dir(b), Dir(c)) != 0
    ensures a != b && b != c && a != c
    ensures a == 0 || a == 2 || b == 0 || b == 2 || c == 0 || c == 2
    ensures a == 1 || a == 3 || b == 1 || b == 3 || c == 1 || c == 3
  {
    if a == b || b == c || a == c {
      DependentBeams(a, b, c);
    }
    if !(a == 0 || a == 2 || b == 0 || b == 2 || c == 0 || c == 2) {
      DependentBeams(a, b, c);
    }
    if !(a == 1 || a == 3 || b == 1 || b == 3 || c == 1 || c == 3) {
      DependentBeams(a, b, c);
    }
  }

  /** Three distinct observed beams, one from each horizontal pair, pass
      the gate. */
  lemma {:induction false} CrossBeamsFitted(u: set<int>, a: int, b: int, c: int)
    requires a in u && b in u && c in u
    requires a != b && b != c && a != c
    requires a == 0 || a == 2 || b == 0 || b == 2 || c == 0 || c == 2
    requires a == 1 || a == 3 || b == 1 || b == 3 || c == 1 || c == 3
    ensures Fitted(u)
  {
    var t := {a, b, c};
    assert |t| == 3;
    SubsetCard(t, u);
  }

  /** The gate fits a bin exactly when its observed beams determine all
      three wind components. */
  lemma {:induction false} GateMatchesGeometry(u: set<int>)
    requires Beams(u)
    ensures Fitted(u) <==> Spans(u)
  {
    if Fitted(u) {
      FittedSpans(u);
    }
    if Spans(u) {
      SpansFitted(u);
    }
  }

  // ---------------------------------------------------------------------
  // Blanking and the result row

  /** The coefficients and standard errors statsmodels reports for the x,
      y and z components. */
  datatype Triple = Triple(x: Num, y: Num, z: Num)
  datatype Fit = Fit(params: Triple, bse: Triple)

  /** A standard error the size filter accepts: finite, and not above the
      bound. A NaN or +inf bound accepts every finite error (both
      comparisons are false), a -inf bound accepts none. */
  predicate Acceptable(se: Num, maxSe: Num) {
    se.Finite? &&
    match maxSe
    case Finite(m) => se.v <= m
    case PosInf => true
    case NaN => true
    case NegInf => false
  }

  /** Line 239: a coefficient becomes NaN when its standard error exceeds
      `maxSe` or is not finite. */
  function Blank(coef: Num, se: Num, maxSe: Num): (r: Num)
    ensures r == coef || r.NaN?
    ensures Acceptable(se, maxSe) ==> r == coef
    ensures !Acceptable(se, maxSe) ==> r.NaN?
  {
    if Greater(se, maxSe) || !se.Finite? then NaN else coef
  }

  /** Line 240: the blanked coefficients followed by the standard errors
      as reported. */
  function ResultRow(fit: Fit, maxSe: Num): (row: seq<Num>)
    ensures |row| == 6
    ensures row[3..] == [fit.bse.x, fit.bse.y, fit.bse.z]
    ensures row[0] == Blank(fit.params.x, fit.bse.x, maxSe)
    ensures row[1] == Blank(fit.params.y, fit.bse.y, maxSe)
    ensures row[2] == Blank(fit.params.z, fit.bse.z, maxSe)
  {
    [Blank(fit.params.x, fit.bse.x, maxSe), Blank(fit.params.y, fit.bse.y, maxSe), Blank(fit.params.z, fit.bse.z, maxSe),
     fit.bse.x, fit.bse.y, fit.bse.z]
  }

  /** A row of a frame built with an index and columns but no data. */
  function MissingRow(): (row: seq<Num>)
    ensures |row| == 6 && forall k :: 0 <= k < 6 ==> row[k].NaN?
  {
    [NaN, NaN, NaN, NaN, NaN, NaN]
  }

  /** A value that survives in a stored row has a standard error the
      size filter accepts. */
  lemma {:induction false} ResultRowValues(fit: Fit, maxSe: Num)
    ensures forall k :: 0 <= k < 3 && !ResultRow(fit, maxSe)[k].NaN? ==>
      Acceptable([fit.bse.x, fit.bse.y, fit.bse.z][k], maxSe)
  {
    var row := ResultRow(fit, maxSe);
    forall k | 0 <= k < 3 && !row[k].NaN?
      ensures Acceptable([fit.bse.x, fit.bse.y, fit.bse.z][k], maxSe)
    {
      if k == 0 {
        assert row[0] == Blank(fit.params.x, fit.bse.x, maxSe);
      } else if k == 1 {
        assert row[1] == Blank(fit.params.y, fit.bse.y, maxSe);
      } else {
        assert row[2] == Blank(fit.params.z, fit.bse.z, maxSe);
      }
    }
  }

  /** Lines 214-241: for every column (range bin) in order, the row stays
      empty when the gate skips the bin, and otherwise holds the result row
      of the fit of -column against the beam directions. */
  method Regress(los: seq<int>, columns: seq<seq<Num>>, fit: (seq<int>, seq<Num>) -> Fit, maxSe: Num)
    returns (rows: seq<seq<Num>>)
    requires forall n :: 0 <= n < |columns| ==> |columns[n]| == |los|
    ensures |rows| == |columns|
    ensures forall n :: 0 <= n < |columns| ==>
      rows[n] == if Fitted(ObservedLos(los, Negated(columns[n])))
                 then ResultRow(fit(los, Negated(columns[n])), maxSe)
                 else MissingRow()
  {
    rows := seq(|columns|, _ => MissingRow());
    var n := 0;
    while n < |columns|
      invariant 0 <= n <= |columns| && |rows| == |columns|
      invariant forall m :: 0 <= m < n ==>
        rows[m] == if Fitted(ObservedLos(los, Negated(columns[m])))
                   then ResultRow(fit(los, Negated(columns[m])), maxSe)
                   else MissingRow()
      invariant forall m :: n <= m < |columns| ==> rows[m] == MissingRow()
    {
      var y := Negated(columns[n]);
      var observed := ObservedLos(los, y);
      if !Fitted(observed) {
        n := n + 1;
        continue;
      }
      var result := fit(los, y);
      rows := rows[n := ResultRow(result, maxSe)];
      n := n + 1;
    }
  }

  /** Negating a column does not change which rows are missing. */
  lemma {:induction false} ObservedUnderNegation(los: seq<int>, col: seq<Num>)
    requires |col| == |los|
    ensures ObservedLos(los, Negated(col)) == ObservedLos(los, col)
  {
    var y := Negated(col);
    assert forall i :: 0 <= i < |los| ==> (y[i].NaN? <==> col[i].NaN?);
  }
}
