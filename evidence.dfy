/**
 * The statistics of the weight-of-evidence encoder, as pure functions:
 * per-category proportions of event and non-event rows, the category -> WoE
 * table, the category -> IV-contribution table, the information value of a
 * feature and its predictive-power description.
 */
module Evidence {
  import opened Wrappers
  import opened Frame
  import MapSum

  /** Target value of an event row, and of a non-event row. */
  const Event: int := 1
  const NonEvent: int := 0

  // ---------------------------------------------------------------------------
  // Counting (pandas value_counts)
  // ---------------------------------------------------------------------------

  /** Number of target entries equal to `cls`: `y.value_counts()[cls]`. */
  function ClassSize(y: seq<int>, cls: int): (n: nat)
    ensures n <= |y|
  {
    if y == [] then 0 else ClassSize(y[..|y| - 1], cls) + (if y[|y| - 1] == cls then 1 else 0)
  }

  /** Number of rows of class `cls` whose category is not missing. */
  function Labelled(x: seq<Cell>, y: seq<int>, cls: int): (n: nat)
    requires |x| == |y|
    ensures n <= ClassSize(y, cls)
  {
    if x == [] then 0
    else
      Labelled(x[..|x| - 1], y[..|y| - 1], cls)
      + (if y[|y| - 1] == cls && x[|x| - 1] != Missing then 1 else 0)
  }

  /** Category `c` is carried by some row of class `cls` (missing values are not categories). */
  ghost predicate Observed(x: seq<Cell>, y: seq<int>, cls: int, c: Cell)
    requires |x| == |y|
  {
    c != Missing && exists i :: 0 <= i < |x| && y[i] == cls && x[i] == c
  }

  /** Some row of class `cls` carries a category. */
  ghost predicate HasClass(x: seq<Cell>, y: seq<int>, cls: int)
    requires |x| == |y|
  {
    exists i :: 0 <= i < |x| && y[i] == cls && x[i] != Missing
  }

  /**
   * Per-category counts of the rows of class `cls`: the `cls` block of
   * `groupby("target")["feat"].value_counts()`, which drops missing values.
   */
  function Counts(x: seq<Cell>, y: seq<int>, cls: int): (m: map<Cell, nat>)
    requires |x| == |y|
    ensures forall c :: c in m ==> c != Missing && 1 <= m[c]
    decreases |x|
  {
    if x == [] then map[]
    else
      var m := Counts(x[..|x| - 1], y[..|y| - 1], cls);
      var c := x[|x| - 1];
      if y[|y| - 1] == cls && c != Missing then m[c := (if c in m then m[c] else 0) + 1] else m
  }

  /** The counted categories are exactly those observed in class `cls`. */
  lemma {:induction false} CountsKeys(x: seq<Cell>, y: seq<int>, cls: int)
    requires |x| == |y|
    ensures forall c :: c in Counts(x, y, cls) <==> Observed(x, y, cls, c)
    decreases |x|
  {
    if x != [] {
      var n := |x| - 1;
      var x', y' := x[..n], y[..n];
      CountsKeys(x', y', cls);
      forall c ensures c in Counts(x, y, cls) <==> Observed(x, y, cls, c) {
        if Observed(x', y', cls, c) {
          var i :| 0 <= i < |x'| && y'[i] == cls && x'[i] == c;
          assert y[i] == cls && x[i] == c;
        }
        if Observed(x, y, cls, c) && !(y[n] == cls && x[n] == c) {
          var i :| 0 <= i < |x| && y[i] == cls && x[i] == c;
          assert i < n && y'[i] == cls && x'[i] == c;
        }
      }
    }
  }

  /** Every count is at least one and at most the number of counted rows. */
  lemma {:induction false} CountsBounds(x: seq<Cell>, y: seq<int>, cls: int)
    requires |x| == |y|
    ensures forall c :: c in Counts(x, y, cls) ==> 1 <= Counts(x, y, cls)[c] <= Labelled(x, y, cls)
    decreases |x|
  {
    if x != [] {
      CountsBounds(x[..|x| - 1], y[..|y| - 1], cls);
    }
  }

  /** The counts, as reals. */
  function AsReal(m: map<Cell, nat>): (r: map<Cell, real>)
    ensures r.Keys == m.Keys
  {
    map c | c in m :: m[c] as real
  }

  /** The counts add up to the number of counted rows. */
  lemma {:induction false} CountsSum(x: seq<Cell>, y: seq<int>, cls: int)
    requires |x| == |y|
    ensures MapSum.Sum(AsReal(Counts(x, y, cls))) == Labelled(x, y, cls) as real
    decreases |x|
  {
    if x == [] {
      assert AsReal(Counts(x, y, cls)).Keys == {};
    } else {
      var n := |x| - 1;
      var m := Counts(x[..n], y[..n], cls);
      CountsSum(x[..n], y[..n], cls);
      var c := x[n];
      if y[n] == cls && c != Missing {
        var v := (if c in m then m[c] else 0) + 1;
        assert AsReal(Counts(x, y, cls)) == AsReal(m)[c := v as real];
        MapSum.SumUpdate(AsReal(m), c, v as real);
      }
    }
  }

  /** When no row of class `cls` has a missing category, every such row is counted. */
  lemma {:induction false} LabelledAll(x: seq<Cell>, y: seq<int>, cls: int)
    requires |x| == |y|
    requires forall i :: 0 <= i < |x| && y[i] == cls ==> x[i] != Missing
    ensures Labelled(x, y, cls) == ClassSize(y, cls)
    decreases |x|
  {
    if x != [] {
      var n := |x| - 1;
      assert y[..n] == y[..|y| - 1];
      LabelledAll(x[..n], y[..n], cls);
    }
  }

  /** `ClassSize` is the number of entries of `y` equal to `cls`. */
  lemma {:induction false} ClassSizeCount(y: seq<int>, cls: int)
    ensures ClassSize(y, cls) == multiset(y)[cls]
    decreases |y|
  {
    if y != [] {
      var n := |y| - 1;
      ClassSizeCount(y[..n], cls);
      assert y == y[..n] + [y[n]];
      assert multiset(y) == multiset(y[..n]) + multiset{y[n]};
    }
  }

  /** The rows of indices below `n` of class `cls` whose category is present. */
  ghost function LabelledRows(x: seq<Cell>, y: seq<int>, cls: int, n: nat): set<nat>
    requires |x| == |y| && n <= |x|
  {
    set i: nat | i < n && y[i] == cls && x[i] != Missing
  }

  /** `Labelled` is the number of rows of class `cls` whose category is present. */
  lemma LabelledCount(x: seq<Cell>, y: seq<int>, cls: int)
    requires |x| == |y|
    ensures Labelled(x, y, cls) == |LabelledRows(x, y, cls, |x|)|
  {
    LabelledPrefix(x, y, cls, |x|);
    assert x[..|x|] == x && y[..|y|] == y;
  }

  lemma {:induction false} LabelledPrefix(x: seq<Cell>, y: seq<int>, cls: int, n: nat)
    requires |x| == |y| && n <= |x|
    ensures Labelled(x[..n], y[..n], cls) == |LabelledRows(x, y, cls, n)|
  {
    if n == 0 {
      assert LabelledRows(x, y, cls, 0) == {};
    } else {
      var m := n - 1;
      LabelledPrefix(x, y, cls, m);
      assert x[..n][..m] == x[..m] && y[..n][..m] == y[..m];
      var before := LabelledRows(x, y, cls, m);
      if y[m] == cls && x[m] != Missing {
        assert LabelledRows(x, y, cls, n) == before + {m};
        assert m !in before;
      } else {
        assert LabelledRows(x, y, cls, n) == before;
      }
    }
  }

  /** The rows of the table as (category, target) pairs. */
  function Rows(x: seq<Cell>, y: seq<int>): (r: seq<(Cell, int)>)
    requires |x| == |y|
    ensures |r| == |x| && forall i :: 0 <= i < |x| ==> r[i] == (x[i], y[i])
  {
    seq(|x|, i requires 0 <= i < |x| => (x[i], y[i]))
  }

  /**
   * The count of a category in class `cls` is the number of rows carrying
   * that category with that target value (0 when it is absent).
   */
  lemma {:induction false} CountsValue(x: seq<Cell>, y: seq<int>, cls: int, c: Cell)
    requires |x| == |y|
    requires c != Missing
    ensures (if c in Counts(x, y, cls) then Counts(x, y, cls)[c] else 0) == multiset(Rows(x, y))[(c, cls)]
    decreases |x|
  {
    if x != [] {
      var n := |x| - 1;
      CountsValue(x[..n], y[..n], cls, c);
      var r := Rows(x, y);
      assert r == Rows(x[..n], y[..n]) + [(x[n], y[n])];
      assert multiset(r) == multiset(Rows(x[..n], y[..n])) + multiset{(x[n], y[n])};
    }
  }

  // ---------------------------------------------------------------------------
  // Proportions (__calc_perc)
  // ---------------------------------------------------------------------------

  /** Share of the rows of class `cls` that carry each category. */
  function Proportions(x: seq<Cell>, y: seq<int>, cls: int): (p: map<Cell, real>)
    requires |x| == |y|
    requires ClassSize(y, cls) > 0
    ensures p.Keys == Counts(x, y, cls).Keys
  {
    var m := Counts(x, y, cls);
    map c | c in m :: m[c] as real / ClassSize(y, cls) as real
  }

  /** Every value lies in (0, 1]. */
  ghost predicate Probabilities(p: map<Cell, real>)
  {
    forall c :: c in p ==> 0.0 < p[c] <= 1.0
  }

  /** The proportions of event rows and of non-event rows. */
  datatype Percentages = Percentages(event: map<Cell, real>, nonEvent: map<Cell, real>)

  /** A class has a counted row exactly when its count table is not empty, and then it is not empty. */
  lemma HasClassCounts(x: seq<Cell>, y: seq<int>, cls: int)
    requires |x| == |y|
    ensures HasClass(x, y, cls) <==> Counts(x, y, cls) != map[]
    ensures HasClass(x, y, cls) ==> ClassSize(y, cls) > 0
  {
    CountsKeys(x, y, cls);
    CountsBounds(x, y, cls);
    if HasClass(x, y, cls) {
      var i :| 0 <= i < |x| && y[i] == cls && x[i] != Missing;
      assert Observed(x, y, cls, x[i]);
    }
  }

  /** The proportions of a class are probabilities, one per category observed in it. */
  lemma ProportionsWellFormed(x: seq<Cell>, y: seq<int>, cls: int)
    requires |x| == |y| && ClassSize(y, cls) > 0
    ensures forall c :: c in Proportions(x, y, cls) <==> Observed(x, y, cls, c)
    ensures Probabilities(Proportions(x, y, cls))
  {
    CountsKeys(x, y, cls);
    CountsBounds(x, y, cls);
    var m := Counts(x, y, cls);
    var p := Proportions(x, y, cls);
    forall c | c in p ensures 0.0 < p[c] <= 1.0 {
      UnitRatio(m[c], ClassSize(y, cls));
    }
  }

  /**
   * Each category's proportion is the number of rows pairing it with the
   * class over the number of rows of the class; an absent category has 0.
   */
  lemma ProportionsValue(x: seq<Cell>, y: seq<int>, cls: int, c: Cell)
    requires |x| == |y| && multiset(y)[cls] > 0 && c != Missing
    ensures ClassSize(y, cls) == multiset(y)[cls]
    ensures (if c in Proportions(x, y, cls) then Proportions(x, y, cls)[c] else 0.0)
         == multiset(Rows(x, y))[(c, cls)] as real / multiset(y)[cls] as real
  {
    ClassSizeCount(y, cls);
    CountsValue(x, y, cls, c);
    var m, p := Counts(x, y, cls), Proportions(x, y, cls);
    var k := if c in m then m[c] else 0;
    var n := ClassSize(y, cls);
    assert k == multiset(Rows(x, y))[(c, cls)];
    assert n == multiset(y)[cls];
    assert (if c in p then p[c] else 0.0) == k as real / n as real;
  }

  /** A count between one and the class size gives a share in (0, 1]. */
  lemma UnitRatio(k: nat, n: nat)
    requires 1 <= k <= n
    ensures 0.0 < k as real / n as real <= 1.0
  {
  }

  /** The proportions of the categories of `x` among the event and the non-event rows of `y`. */
  function CalcPerc(x: seq<Cell>, y: seq<int>): (r: Result<Percentages, Error>)
    ensures |x| != |y| ==> r == Failure(LengthMismatch)
    ensures |x| == |y| && !HasClass(x, y, Event) ==> r == Failure(ClassNotFound(Event))
    ensures |x| == |y| && HasClass(x, y, Event) && !HasClass(x, y, NonEvent) ==> r == Failure(ClassNotFound(NonEvent))
    ensures r.Success? <==> |x| == |y| && HasClass(x, y, Event) && HasClass(x, y, NonEvent)
    ensures r.Success? ==>
      && |x| == |y| && HasClass(x, y, Event) && HasClass(x, y, NonEvent)
      && (forall c :: c in r.value.event <==> Observed(x, y, Event, c))
      && (forall c :: c in r.value.nonEvent <==> Observed(x, y, NonEvent, c))
      && Probabilities(r.value.event) && Probabilities(r.value.nonEvent)
    ensures r.Success? ==> |x| == |y| && ClassSize(y, Event) > 0 && ClassSize(y, NonEvent) > 0
    ensures r.Success? ==> r.value == Percentages(Proportions(x, y, Event), Proportions(x, y, NonEvent))
  {
    if |x| != |y| then Failure(LengthMismatch)
    else
      HasClassCounts(x, y, Event);
      HasClassCounts(x, y, NonEvent);
      if Counts(x, y, Event) == map[] then Failure(ClassNotFound(Event))
      else if Counts(x, y, NonEvent) == map[] then Failure(ClassNotFound(NonEvent))
      else
        ProportionsWellFormed(x, y, Event);
        ProportionsWellFormed(x, y, NonEvent);
        Success(Percentages(Proportions(x, y, Event), Proportions(x, y, NonEvent)))
  }

  /** The proportions of a class add up to the share of its rows whose category is not missing. */
  lemma ProportionsSum(x: seq<Cell>, y: seq<int>, cls: int)
    requires |x| == |y| && ClassSize(y, cls) > 0
    ensures MapSum.Sum(Proportions(x, y, cls)) == Labelled(x, y, cls) as real / ClassSize(y, cls) as real
  {
    var d := ClassSize(y, cls) as real;
    var m := AsReal(Counts(x, y, cls));
    var p := Proportions(x, y, cls);
    assert p == map c | c in m :: m[c] / d;
    MapSum.SumScale(m, d);
    CountsSum(x, y, cls);
  }

  /** When no row of the class has a missing category, its proportions add up to exactly 1. */
  lemma ProportionsSumToOne(x: seq<Cell>, y: seq<int>, cls: int)
    requires |x| == |y| && ClassSize(y, cls) > 0
    requires forall i :: 0 <= i < |x| && y[i] == cls ==> x[i] != Missing
    ensures MapSum.Sum(Proportions(x, y, cls)) == 1.0
  {
    ProportionsSum(x, y, cls);
    LabelledAll(x, y, cls);
    DivSelf(ClassSize(y, cls) as real);
  }

  lemma DivSelf(d: real)
    requires d != 0.0
    ensures d / d == 1.0
  {
  }

  // ---------------------------------------------------------------------------
  // WoE and IV tables (fit, per feature)
  // ---------------------------------------------------------------------------

  /**
   * What the model assumes of the natural logarithm `np.log`, which Dafny does
   * not define: on positive reals it is negative below 1 and positive above 1.
   */
  ghost predicate LogSign(ln: real -> real)
  {
    forall r: real :: 0.0 < r ==> (ln(r) < 0.0 <==> r < 1.0) && (ln(r) > 0.0 <==> r > 1.0)
  }

  /**
   * The WoE table of a feature: `ln(p_non_event / p_event)` for a category seen
   * in both classes, and 0 (the `fillna(0)` of the NaN that pandas produces)
   * for one seen in only one of them.
   */
  function WoeTable(p: Percentages, ln: real -> real): (woe: map<Cell, real>)
    requires Probabilities(p.event) && Probabilities(p.nonEvent)
    ensures woe.Keys == p.event.Keys + p.nonEvent.Keys
    ensures forall c :: c in woe && (c !in p.event || c !in p.nonEvent) ==> woe[c] == 0.0
    ensures LogSign(ln) ==> forall c :: c in p.event && c in p.nonEvent ==>
      && (woe[c] < 0.0 <==> p.nonEvent[c] < p.event[c])
      && (woe[c] > 0.0 <==> p.nonEvent[c] > p.event[c])
  {
    var woe := map c | c in p.event.Keys + p.nonEvent.Keys ::
      if c in p.event && c in p.nonEvent then ln(p.nonEvent[c] / p.event[c]) else 0.0;
    assert LogSign(ln) ==> forall c :: c in p.event && c in p.nonEvent ==>
      && (woe[c] < 0.0 <==> p.nonEvent[c] < p.event[c])
      && (woe[c] > 0.0 <==> p.nonEvent[c] > p.event[c]) by {
      if LogSign(ln) {
        forall c | c in p.event && c in p.nonEvent
          ensures woe[c] < 0.0 <==> p.nonEvent[c] < p.event[c]
          ensures woe[c] > 0.0 <==> p.nonEvent[c] > p.event[c]
        {
          RatioBelowOne(p.nonEvent[c], p.event[c]);
        }
      }
    }
    woe
  }

  /** For positive `a` and `b`, `a / b` is positive and compares with 1 as `a` compares with `b`. */
  lemma RatioBelowOne(a: real, b: real)
    requires 0.0 < a && 0.0 < b
    ensures 0.0 < a / b
    ensures a / b < 1.0 <==> a < b
    ensures a / b > 1.0 <==> a > b
  {
    var q := a / b;
    assert a - b == (q - 1.0) * b;
    if q < 1.0 { MulPositive(1.0 - q, b); }
    if q > 1.0 { MulPositive(q - 1.0, b); }
  }

  lemma MulPositive(u: real, v: real)
    requires 0.0 < u && 0.0 < v
    ensures 0.0 < u * v
  {
  }

  /**
   * The IV table of a feature: `(p_non_event - p_event) * woe` for a category
   * seen in both classes; for one seen in only one class pandas' index
   * alignment gives NaN, which becomes `fillna` when that is set and stays NaN
   * (`None`) otherwise.
   */
  function IvTable(p: Percentages, ln: real -> real, fillna: Option<real>): (iv: map<Cell, Option<real>>)
    requires Probabilities(p.event) && Probabilities(p.nonEvent)
    ensures iv.Keys == p.event.Keys + p.nonEvent.Keys
    ensures forall c :: c in iv ==> (iv[c] == None <==> fillna == None && (c !in p.event || c !in p.nonEvent))
    ensures forall c :: c in iv && (c !in p.event || c !in p.nonEvent) ==> iv[c] == fillna
  {
    var woe := WoeTable(p, ln);
    map c | c in woe ::
      if c in p.event && c in p.nonEvent then Some((p.nonEvent[c] - p.event[c]) * woe[c]) else fillna
  }

  /**
   * With a genuine logarithm, the contribution of a category seen in both
   * classes is defined and never negative: `p_non_event - p_event` and its
   * WoE have the same sign.
   */
  lemma IvContributionNonNegative(p: Percentages, ln: real -> real, fillna: Option<real>, c: Cell)
    requires Probabilities(p.event) && Probabilities(p.nonEvent)
    requires LogSign(ln)
    requires c in p.event && c in p.nonEvent
    ensures IvTable(p, ln, fillna)[c].Some? && IvTable(p, ln, fillna)[c].value >= 0.0
  {
    IvTableAt(p, ln, fillna, c);
    ContributionSign(p, ln, c);
  }

  lemma WoeSignAt(p: Percentages, ln: real -> real, c: Cell)
    requires Probabilities(p.event) && Probabilities(p.nonEvent)
    requires LogSign(ln)
    requires c in p.event && c in p.nonEvent
    ensures WoeTable(p, ln)[c] < 0.0 <==> p.nonEvent[c] - p.event[c] < 0.0
    ensures WoeTable(p, ln)[c] > 0.0 <==> p.nonEvent[c] - p.event[c] > 0.0
  {
  }

  lemma IvTableAt(p: Percentages, ln: real -> real, fillna: Option<real>, c: Cell)
    requires Probabilities(p.event) && Probabilities(p.nonEvent)
    requires c in p.event && c in p.nonEvent
    ensures IvTable(p, ln, fillna)[c] == Some((p.nonEvent[c] - p.event[c]) * WoeTable(p, ln)[c])
  {
    assert c in WoeTable(p, ln);
  }

  /** `p_non_event - p_event` and the WoE have the same sign, so their product is not negative. */
  lemma ContributionSign(p: Percentages, ln: real -> real, c: Cell)
    requires Probabilities(p.event) && Probabilities(p.nonEvent)
    requires LogSign(ln)
    requires c in p.event && c in p.nonEvent
    ensures (p.nonEvent[c] - p.event[c]) * WoeTable(p, ln)[c] >= 0.0
  {
    WoeSignAt(p, ln, c);
    SameSignProduct(p.nonEvent[c] - p.event[c], WoeTable(p, ln)[c]);
  }

  /** Two factors that are negative, zero or positive together have a non-negative product. */
  lemma SameSignProduct(a: real, b: real)
    requires (a < 0.0 <==> b < 0.0) && (a > 0.0 <==> b > 0.0)
    ensures a * b >= 0.0
  {
  }

  /** The fitted tables of one feature. */
  datatype FeatureModel = FeatureModel(woe: map<Cell, real>, iv: map<Cell, Option<real>>)

  /** Fit one feature of `columns` against the target `y`: `X[feat]`, `__calc_perc`, then the tables. */
  function FitFeature(columns: map<string, Column>, y: seq<int>, feat: string, fillna: Option<real>, ln: real -> real)
    : (r: Result<FeatureModel, Error>)
    ensures feat !in columns ==> r == Failure(KeyError(feat))
    ensures feat in columns ==> (r.Success? <==> CalcPerc(columns[feat], y).Success?)
    ensures r.Success? ==> r.value.woe.Keys == r.value.iv.Keys
    ensures r.Success? ==>
      && feat in columns && CalcPerc(columns[feat], y).Success?
      && var p := CalcPerc(columns[feat], y).value;
         r.value == FeatureModel(WoeTable(p, ln), IvTable(p, ln, fillna))
  {
    if feat !in columns then Failure(KeyError(feat))
    else
      match CalcPerc(columns[feat], y)
      case Failure(e) => Failure(e)
      case Success(p) => Success(FeatureModel(WoeTable(p, ln), IvTable(p, ln, fillna)))
  }

  /**
   * A category gets a WoE value exactly when some event or non-event row of
   * the training column carries it; every other value (unseen, missing, or
   * only seen with another target value) is unknown to the table.
   */
  lemma WoeKeysObserved(columns: map<string, Column>, y: seq<int>, feat: string, fillna: Option<real>, ln: real -> real)
    requires FitFeature(columns, y, feat, fillna, ln).Success?
    ensures feat in columns && |columns[feat]| == |y|
    ensures forall c :: c in FitFeature(columns, y, feat, fillna, ln).value.woe <==>
      Observed(columns[feat], y, Event, c) || Observed(columns[feat], y, NonEvent, c)
  {
  }

  // ---------------------------------------------------------------------------
  // Information value (information_values)
  // ---------------------------------------------------------------------------

  /** The defined (non-NaN) contributions of an IV table. */
  function Defined(iv: map<Cell, Option<real>>): (d: map<Cell, real>)
    ensures forall c :: c in d <==> c in iv && iv[c].Some?
    ensures forall c :: c in d ==> d[c] == iv[c].value
  {
    map c | c in iv && iv[c].Some? :: iv[c].value
  }

  /** The information value of a feature: pandas `sum()`, which skips NaN. */
  ghost function InformationValue(iv: map<Cell, Option<real>>): (r: real)
    ensures (forall c :: c in iv && iv[c].Some? ==> iv[c].value >= 0.0) ==> r >= 0.0
  {
    var d := Defined(iv);
    if forall c :: c in d ==> d[c] >= 0.0 then
      MapSum.SumNonNegative(d);
      MapSum.Sum(d)
    else
      MapSum.Sum(d)
  }

  /**
   * With a genuine logarithm and no negative fill value, the information value
   * of a fitted feature is never negative.
   */
  lemma InformationValueNonNegative(p: Percentages, ln: real -> real, fillna: Option<real>)
    requires Probabilities(p.event) && Probabilities(p.nonEvent)
    requires LogSign(ln)
    requires fillna.None? || fillna.value >= 0.0
    ensures InformationValue(IvTable(p, ln, fillna)) >= 0.0
  {
    var iv := IvTable(p, ln, fillna);
    var d := Defined(iv);
    forall c | c in d ensures d[c] >= 0.0 {
      if c in p.event && c in p.nonEvent {
        IvContributionNonNegative(p, ln, fillna, c);
      }
    }
    MapSum.SumNonNegative(d);
  }

  /** Sum the IV contributions of one feature, skipping NaN, one category at a time. */
  method SeriesSum(iv: map<Cell, Option<real>>) returns (total: real)
    ensures total == InformationValue(iv)
  {
    total := 0.0;
    var rest := iv;
    while rest != map[]
      invariant total + InformationValue(rest) == InformationValue(iv)
      decreases rest.Keys
    {
      var c :| c in rest;
      var d := Defined(rest);
      if rest[c].Some? {
        MapSum.SumRemove(d, c);
        assert Defined(rest - {c}) == d - {c};
        total := total + rest[c].value;
      } else {
        assert Defined(rest - {c}) == d;
      }
      rest := rest - {c};
    }
    assert Defined(rest).Keys == {};
  }

  // ---------------------------------------------------------------------------
  // Predictive-power bands (__add_description)
  // ---------------------------------------------------------------------------

  const NotUseful := "Not useful for prediction"
  const Weak := "Weak predictive power"
  const Medium := "Medium predictive power"
  const Strong := "Strong predictive power"
  const TooGood := "Too good to be true!"

  /** The upper end of a band: a number, or infinity. */
  datatype Bound = Below(limit: real) | Unbounded

  /** A half-open band `[lower, upper)` and its description. */
  datatype Band = Band(lower: real, upper: Bound, description: string)

  /** The bands, in the order they are tried. */
  const PredictivePower: seq<Band> := [
    Band(0.0, Below(0.02), NotUseful),
    Band(0.02, Below(0.1), Weak),
    Band(0.1, Below(0.3), Medium),
    Band(0.3, Below(0.5), Strong),
    Band(0.5, Unbounded, TooGood)
  ]

  predicate InBand(b: Band, v: real)
  {
    b.lower <= v && (b.upper.Unbounded? || v < b.upper.limit)
  }

  /** The description of the first band holding `v`; "Too good to be true!" when none does. */
  function FirstMatch(bands: seq<Band>, v: real): (desc: string)
    ensures
      || (exists i :: 0 <= i < |bands| && InBand(bands[i], v) && desc == bands[i].description
                      && forall j :: 0 <= j < i ==> !InBand(bands[j], v))
      || ((forall i :: 0 <= i < |bands| ==> !InBand(bands[i], v)) && desc == TooGood)
  {
    if bands == [] then TooGood
    else if InBand(bands[0], v) then bands[0].description
    else FirstMatch(bands[1..], v)
  }

  /** The predictive-power description of an information value. */
  function AddDescription(iv: real): (desc: string)
    ensures desc == NotUseful <==> 0.0 <= iv < 0.02
    ensures desc == Weak <==> 0.02 <= iv < 0.1
    ensures desc == Medium <==> 0.1 <= iv < 0.3
    ensures desc == Strong <==> 0.3 <= iv < 0.5
    ensures desc == TooGood <==> iv < 0.0 || 0.5 <= iv
  {
    BandsInOrder(iv);
    FirstMatch(PredictivePower, iv)
  }

  /** The first band holding `iv`, spelled out band by band. */
  lemma BandsInOrder(iv: real)
    ensures FirstMatch(PredictivePower, iv) ==
      if 0.0 <= iv < 0.02 then NotUseful
      else if 0.02 <= iv < 0.1 then Weak
      else if 0.1 <= iv < 0.3 then Medium
      else if 0.3 <= iv < 0.5 then Strong
      else TooGood
  {
    var b := PredictivePower;
    assert FirstMatch(b[4..], iv) == if 0.5 <= iv then TooGood else FirstMatch(b[5..], iv);
    assert FirstMatch(b[5..], iv) == TooGood;
    assert FirstMatch(b[3..], iv) == if 0.3 <= iv < 0.5 then Strong else FirstMatch(b[4..], iv) by {
      assert b[3..][1..] == b[4..];
    }
    assert FirstMatch(b[2..], iv) == if 0.1 <= iv < 0.3 then Medium else FirstMatch(b[3..], iv) by {
      assert b[2..][1..] == b[3..];
    }
    assert FirstMatch(b[1..], iv) == if 0.02 <= iv < 0.1 then Weak else FirstMatch(b[2..], iv) by {
      assert b[1..][1..] == b[2..];
    }
  }

  // ---------------------------------------------------------------------------
  // Worked example
  // ---------------------------------------------------------------------------

  const CityA := Text("A")
  const CityB := Text("B")
  const City: seq<Cell> := [CityA, CityA, CityA, CityB, CityB]
  const CityTarget: seq<int> := [1, 1, 0, 0, 0]

  /** The value counts of the example, prefix by prefix. */
  lemma CityCounts()
    ensures Counts(City, CityTarget, Event) == map[CityA := 2]
    ensures Counts(City, CityTarget, NonEvent) == map[CityA := 1, CityB := 2]
    ensures ClassSize(CityTarget, Event) == 2 && ClassSize(CityTarget, NonEvent) == 3
  {
    var a, b := CityA, CityB;
    var x, y := City, CityTarget;
    var x1, x2, x3, x4 := [a], [a, a], [a, a, a], [a, a, a, b];
    var y1, y2, y3, y4 := [1], [1, 1], [1, 1, 0], [1, 1, 0, 0];
    assert x[..4] == x4;
    assert x4[..3] == x3;
    assert x3[..2] == x2;
    assert x2[..1] == x1;
    assert x1[..0] == [];
    assert y[..4] == y4;
    assert y4[..3] == y3;
    assert y3[..2] == y2;
    assert y2[..1] == y1;
    assert y1[..0] == [];
    assert Counts([], [], Event) == map[] && Counts([], [], NonEvent) == map[];
    assert Counts(x1, y1, Event) == map[a := 1] && Counts(x1, y1, NonEvent) == map[];
    assert Counts(x2, y2, Event) == map[a := 2] && Counts(x2, y2, NonEvent) == map[];
    assert Counts(x3, y3, Event) == map[a := 2] && Counts(x3, y3, NonEvent) == map[a := 1];
    assert Counts(x4, y4, Event) == map[a := 2] && Counts(x4, y4, NonEvent) == map[a := 1, b := 1];
    assert ClassSize([], Event) == 0 && ClassSize([], NonEvent) == 0;
    assert ClassSize(y1, Event) == 1 && ClassSize(y1, NonEvent) == 0;
    assert ClassSize(y2, Event) == 2 && ClassSize(y2, NonEvent) == 0;
    assert ClassSize(y3, Event) == 2 && ClassSize(y3, NonEvent) == 1;
    assert ClassSize(y4, Event) == 2 && ClassSize(y4, NonEvent) == 2;
  }

  /** The proportions of the example: A carries every event row and a third of the non-event rows. */
  const CityPercentages := Percentages(map[CityA := 1.0], map[CityA := 1.0 / 3.0, CityB := 2.0 / 3.0])

  lemma CityProportions()
    ensures CalcPerc(City, CityTarget) == Success(CityPercentages)
  {
    CityCounts();
    var x, y := City, CityTarget;
    assert HasClass(x, y, Event) by { assert y[0] == Event && x[0] != Missing; }
    assert HasClass(x, y, NonEvent) by { assert y[2] == NonEvent && x[2] != Missing; }
    HasClassCounts(x, y, Event);
    HasClassCounts(x, y, NonEvent);
    assert Proportions(x, y, Event) == CityPercentages.event;
    assert Proportions(x, y, NonEvent) == CityPercentages.nonEvent;
  }

  /** The WoE table of the example, for any logarithm. */
  lemma CityWoe(ln: real -> real)
    ensures Probabilities(CityPercentages.event) && Probabilities(CityPercentages.nonEvent)
    ensures WoeTable(CityPercentages, ln) == map[CityA := ln(1.0 / 3.0), CityB := 0.0]
  {
    var p := CityPercentages;
    var w := WoeTable(p, ln);
    assert w.Keys == {CityA, CityB};
    assert p.nonEvent[CityA] / p.event[CityA] == 1.0 / 3.0;
  }

  /**
   * city = [A, A, A, B, B] against y = [1, 1, 0, 0, 0]: B is seen only in
   * non-event rows, so its WoE is 0 and, without a fill value, its IV
   * contribution is NaN; A's WoE is ln(1/3), which is negative.
   */
  lemma CityExample(ln: real -> real)
    requires LogSign(ln)
    ensures CalcPerc(City, CityTarget) == Success(CityPercentages)
    ensures WoeTable(CityPercentages, ln) == map[CityA := ln(1.0 / 3.0), CityB := 0.0]
    ensures ln(1.0 / 3.0) < 0.0
    ensures IvTable(CityPercentages, ln, None)[CityB] == None
    ensures IvTable(CityPercentages, ln, Some(0.0))[CityB] == Some(0.0)
  {
    CityProportions();
    CityWoe(ln);
  }
}
