/**
 * The `WeightofEvidenceEncoder` object: its configuration, its fitted tables
 * (one WoE table and one IV table per feature) and its fitted flag, with
 * `fit`, the transform (spelled `transofrm` in the source) and
 * `information_values`.
 */
module WoeEncoding {
  import opened Wrappers
  import opened Frame
  import opened Evidence

  type WoeTables = map<string, map<Cell, real>>
  type IvTables = map<string, map<Cell, Option<real>>>

  // ---------------------------------------------------------------------------
  // fit, feature by feature
  // ---------------------------------------------------------------------------

  /** The tables after a fit, and whether it raised. */
  datatype FitState = FitState(woe: WoeTables, iv: IvTables, outcome: Outcome<Error>)

  /**
   * Fit `feats` in order, each overwriting its entries of the tables; the
   * first feature that raises stops the fit, leaving the entries already
   * written in place.
   */
  function FitAll(columns: map<string, Column>, y: seq<int>, feats: seq<string>, fillna: Option<real>,
                  ln: real -> real, woe: WoeTables, iv: IvTables): (s: FitState)
    ensures woe.Keys <= s.woe.Keys && iv.Keys <= s.iv.Keys
    ensures s.outcome.Fail? ==>
      exists f :: f in feats && FitFeature(columns, y, f, fillna, ln) == Failure(s.outcome.error)
    decreases |feats|
  {
    if feats == [] then FitState(woe, iv, Pass)
    else
      match FitFeature(columns, y, feats[0], fillna, ln)
      case Failure(e) => FitState(woe, iv, Fail(e))
      case Success(m) => FitAll(columns, y, feats[1..], fillna, ln, woe[feats[0] := m.woe], iv[feats[0] := m.iv])
  }

  /** One step of a fit that starts at feature `i`. */
  lemma FitAllUnfold(columns: map<string, Column>, y: seq<int>, feats: seq<string>, i: nat,
                     fillna: Option<real>, ln: real -> real, woe: WoeTables, iv: IvTables)
    requires i < |feats|
    ensures var r := FitFeature(columns, y, feats[i], fillna, ln);
      FitAll(columns, y, feats[i..], fillna, ln, woe, iv) ==
        if r.Failure? then FitState(woe, iv, Fail(r.error))
        else FitAll(columns, y, feats[i + 1..], fillna, ln, woe[feats[i] := r.value.woe], iv[feats[i] := r.value.iv])
  {
    assert feats[i..][1..] == feats[i + 1..];
  }

  /**
   * `after` keeps every key of `before`, and agrees with it on every key
   * outside `touched`.
   */
  ghost predicate Framed<V>(before: map<string, V>, after: map<string, V>, touched: seq<string>)
  {
    && before.Keys <= after.Keys
    && forall k :: k !in touched ==> (k in after <==> k in before) && (k in before ==> after[k] == before[k])
  }

  /** Writing `f` and then touching only `rest` touches only `[f] + rest`. */
  lemma FramedStep<V>(before: map<string, V>, f: string, v: V, rest: seq<string>, after: map<string, V>)
    requires Framed(before[f := v], after, rest)
    ensures Framed(before, after, [f] + rest)
  {
    forall k | k !in [f] + rest
      ensures (k in after <==> k in before) && (k in before ==> after[k] == before[k])
    {
      assert k != f && k !in rest;
    }
  }

  /** A fit touches only the entries of the features it fits; it never removes one. */
  lemma {:induction false} FitAllFrame(columns: map<string, Column>, y: seq<int>, feats: seq<string>,
                                       fillna: Option<real>, ln: real -> real, woe: WoeTables, iv: IvTables)
    ensures var s := FitAll(columns, y, feats, fillna, ln, woe, iv);
      Framed(woe, s.woe, feats) && Framed(iv, s.iv, feats)
    decreases |feats|
  {
    if feats != [] {
      var f, rest := feats[0], feats[1..];
      assert feats == [f] + rest;
      var r := FitFeature(columns, y, f, fillna, ln);
      if r.Success? {
        var woe', iv' := woe[f := r.value.woe], iv[f := r.value.iv];
        FitAllFrame(columns, y, rest, fillna, ln, woe', iv');
        var s := FitAll(columns, y, rest, fillna, ln, woe', iv');
        FramedStep(woe, f, r.value.woe, rest, s.woe);
        FramedStep(iv, f, r.value.iv, rest, s.iv);
      }
    }
  }

  /**
   * A fit succeeds exactly when every feature fits, and then each feature's
   * entries are its freshly fitted tables, whatever they held before.
   */
  lemma {:induction false} FitAllSuccess(columns: map<string, Column>, y: seq<int>, feats: seq<string>,
                                         fillna: Option<real>, ln: real -> real, woe: WoeTables, iv: IvTables)
    ensures var s := FitAll(columns, y, feats, fillna, ln, woe, iv);
      && (s.outcome.Pass? <==> forall f :: f in feats ==> FitFeature(columns, y, f, fillna, ln).Success?)
      && (s.outcome.Pass? ==> forall f :: f in feats ==>
            && f in s.woe && s.woe[f] == FitFeature(columns, y, f, fillna, ln).value.woe
            && f in s.iv && s.iv[f] == FitFeature(columns, y, f, fillna, ln).value.iv)
    decreases |feats|
  {
    if feats != [] {
      var f0, rest := feats[0], feats[1..];
      var r := FitFeature(columns, y, f0, fillna, ln);
      assert forall f :: f in feats <==> f == f0 || f in rest by {
        assert feats == [f0] + rest;
      }
      if r.Success? {
        var woe', iv' := woe[f0 := r.value.woe], iv[f0 := r.value.iv];
        var s := FitAll(columns, y, rest, fillna, ln, woe', iv');
        assert FitAll(columns, y, feats, fillna, ln, woe, iv) == s;
        FitAllSuccess(columns, y, rest, fillna, ln, woe', iv');
        if s.outcome.Pass? {
          FitAllFrame(columns, y, rest, fillna, ln, woe', iv');
          forall f | f in feats
            ensures f in s.woe && s.woe[f] == FitFeature(columns, y, f, fillna, ln).value.woe
            ensures f in s.iv && s.iv[f] == FitFeature(columns, y, f, fillna, ln).value.iv
          {
            if f !in rest {
              assert f == f0;
            }
          }
        }
      } else {
        assert FitAll(columns, y, feats, fillna, ln, woe, iv).outcome.Fail?;
      }
    }
  }

  /** A fit that succeeds leaves both tables of every fitted feature in place. */
  lemma FitAllCovers(columns: map<string, Column>, y: seq<int>, feats: seq<string>,
                     fillna: Option<real>, ln: real -> real, woe: WoeTables, iv: IvTables)
    ensures var s := FitAll(columns, y, feats, fillna, ln, woe, iv);
      s.outcome.Pass? ==> forall f :: f in feats ==> f in s.woe && f in s.iv
  {
    FitAllSuccess(columns, y, feats, fillna, ln, woe, iv);
  }

  /**
   * A target without a counted event row makes a fit of at least one
   * existing feature raise on its first feature, before any table is written.
   */
  lemma DegenerateTarget(columns: map<string, Column>, y: seq<int>, feats: seq<string>,
                         fillna: Option<real>, ln: real -> real, woe: WoeTables, iv: IvTables)
    requires |feats| > 0 && feats[0] in columns && |columns[feats[0]]| == |y|
    requires forall i :: 0 <= i < |y| ==> y[i] != Event
    ensures FitAll(columns, y, feats, fillna, ln, woe, iv) == FitState(woe, iv, Fail(ClassNotFound(Event)))
  {
    assert !HasClass(columns[feats[0]], y, Event);
  }

  /** Likewise a target with event rows but no non-event row. */
  lemma DegenerateTargetNoNonEvent(columns: map<string, Column>, y: seq<int>, feats: seq<string>,
                                   fillna: Option<real>, ln: real -> real, woe: WoeTables, iv: IvTables)
    requires |feats| > 0 && feats[0] in columns && |columns[feats[0]]| == |y|
    requires HasClass(columns[feats[0]], y, Event)
    requires forall i :: 0 <= i < |y| ==> y[i] != NonEvent
    ensures FitAll(columns, y, feats, fillna, ln, woe, iv) == FitState(woe, iv, Fail(ClassNotFound(NonEvent)))
  {
    assert !HasClass(columns[feats[0]], y, NonEvent);
  }

  // ---------------------------------------------------------------------------
  // transform, feature by feature
  // ---------------------------------------------------------------------------

  /** The WoE of each row's category; a category the table does not know gives NaN. */
  function EncodeColumn(col: Column, woe: map<Cell, real>): (r: Column)
    ensures |r| == |col|
    ensures forall i :: 0 <= i < |col| ==> (r[i] == Missing <==> col[i] !in woe)
    ensures forall i :: 0 <= i < |col| && col[i] in woe ==> r[i] == Real(woe[col[i]])
  {
    seq(|col|, i requires 0 <= i < |col| => if col[i] in woe then Real(woe[col[i]]) else Missing)
  }

  /**
   * Encode one feature: write `prefix + feat + suffix`, then drop `feat` when
   * asked to and the new name differs from it.
   */
  function ApplyFeature(columns: map<string, Column>, feat: string, woe: map<Cell, real>,
                        prefix: string, suffix: string, drop: bool): (r: Result<map<string, Column>, Error>)
    ensures feat !in columns <==> r == Failure(KeyError(feat))
    ensures r.Success? ==>
      && prefix + feat + suffix in r.value
      && r.value[prefix + feat + suffix] == EncodeColumn(columns[feat], woe)
      && (feat in r.value <==> !(drop && prefix + suffix != ""))
      && (feat in r.value && prefix + suffix != "" ==> r.value[feat] == columns[feat])
      && (forall k :: k != feat && k != prefix + feat + suffix ==>
            (k in r.value <==> k in columns) && (k in columns ==> r.value[k] == columns[k]))
  {
    if feat !in columns then Failure(KeyError(feat))
    else
      var named := columns[prefix + feat + suffix := EncodeColumn(columns[feat], woe)];
      assert prefix + suffix != "" ==> prefix + feat + suffix != feat by {
        assert |prefix + feat + suffix| == |prefix| + |feat| + |suffix|;
      }
      Success(if drop && prefix + suffix != "" then named - {feat} else named)
  }

  /** The columns after a transform, and whether it raised. */
  datatype Applied = Applied(columns: map<string, Column>, outcome: Outcome<Error>)

  /** Encode `feats` in order; the first missing feature stops the transform. */
  function ApplyAll(columns: map<string, Column>, feats: seq<string>, tables: WoeTables,
                    prefix: string, suffix: string, drop: bool): (a: Applied)
    requires forall f :: f in feats ==> f in tables
    ensures a.outcome.Fail? ==> exists f :: f in feats && a.outcome.error == KeyError(f)
    decreases |feats|
  {
    if feats == [] then Applied(columns, Pass)
    else
      match ApplyFeature(columns, feats[0], tables[feats[0]], prefix, suffix, drop)
      case Failure(e) => Applied(columns, Fail(e))
      case Success(c) => ApplyAll(c, feats[1..], tables, prefix, suffix, drop)
  }

  /** Column `k` is neither an encoded feature nor the name of an encoding. */
  ghost predicate Untouched(k: string, feats: seq<string>, prefix: string, suffix: string)
  {
    forall f :: f in feats ==> k != f && k != prefix + f + suffix
  }

  /** A transform leaves every other column as it was. */
  lemma {:induction false} ApplyAllUntouched(columns: map<string, Column>, feats: seq<string>, tables: WoeTables,
                                             prefix: string, suffix: string, drop: bool, k: string)
    requires forall f :: f in feats ==> f in tables
    requires Untouched(k, feats, prefix, suffix)
    ensures var a := ApplyAll(columns, feats, tables, prefix, suffix, drop);
      (k in a.columns <==> k in columns) && (k in columns ==> a.columns[k] == columns[k])
    decreases |feats|
  {
    if feats != [] {
      assert feats[0] in feats;
      var r := ApplyFeature(columns, feats[0], tables[feats[0]], prefix, suffix, drop);
      if r.Success? {
        assert forall f :: f in feats[1..] ==> f in feats;
        ApplyAllUntouched(r.value, feats[1..], tables, prefix, suffix, drop, k);
      }
    }
  }

  /** No feature is another feature's encoding name, and none is listed twice. */
  ghost predicate Separate(feats: seq<string>, prefix: string, suffix: string)
  {
    && (forall i, j :: 0 <= i < j < |feats| ==> feats[i] != feats[j])
    && (forall i, j :: 0 <= i < |feats| && 0 <= j < |feats| && i != j ==> prefix + feats[i] + suffix != feats[j])
  }

  /** Distinct features have distinct encoding names. */
  lemma AffixInjective(prefix: string, f: string, g: string, suffix: string)
    requires prefix + f + suffix == prefix + g + suffix
    ensures f == g
  {
    var s := prefix + f + suffix;
    assert f == s[|prefix|..|prefix| + |f|];
    assert g == s[|prefix|..|prefix| + |g|];
  }

  /**
   * When every feature is present and the features and their encoding names
   * do not collide, a transform succeeds and each encoding column holds the
   * WoE of the feature's original values; each original column survives
   * exactly when it is not dropped.
   */
  lemma {:induction false} ApplyAllEncodes(columns: map<string, Column>, feats: seq<string>, tables: WoeTables,
                                           prefix: string, suffix: string, drop: bool)
    requires forall f :: f in feats ==> f in tables && f in columns
    requires Separate(feats, prefix, suffix)
    ensures var a := ApplyAll(columns, feats, tables, prefix, suffix, drop);
      && a.outcome == Pass
      && (forall f :: f in feats ==>
            && prefix + f + suffix in a.columns
            && a.columns[prefix + f + suffix] == EncodeColumn(columns[f], tables[f])
            && (f in a.columns <==> !(drop && prefix + suffix != ""))
            && (f in a.columns && prefix + suffix != "" ==> a.columns[f] == columns[f]))
    decreases |feats|
  {
    if feats != [] {
      var f0, rest := feats[0], feats[1..];
      assert f0 in feats;
      var c := ApplyFeature(columns, f0, tables[f0], prefix, suffix, drop).value;
      assert forall f :: f in feats <==> f == f0 || f in rest by {
        assert feats == [f0] + rest;
      }
      SeparateTail(feats, prefix, suffix);
      ApplyAllEncodes(c, rest, tables, prefix, suffix, drop);
      ApplyAllUntouched(c, rest, tables, prefix, suffix, drop, f0);
      ApplyAllUntouched(c, rest, tables, prefix, suffix, drop, prefix + f0 + suffix);
      var a := ApplyAll(c, rest, tables, prefix, suffix, drop);
      forall f | f in feats
        ensures prefix + f + suffix in a.columns
        ensures a.columns[prefix + f + suffix] == EncodeColumn(columns[f], tables[f])
        ensures f in a.columns <==> !(drop && prefix + suffix != "")
        ensures f in a.columns && prefix + suffix != "" ==> a.columns[f] == columns[f]
      {
        if f !in rest {
          assert f == f0;
        }
      }
    }
  }

  /**
   * The features after the first are still separate, and neither the first
   * feature nor its encoding name is one of them or one of their encoding names.
   */
  lemma SeparateTail(feats: seq<string>, prefix: string, suffix: string)
    requires |feats| > 0 && Separate(feats, prefix, suffix)
    ensures Separate(feats[1..], prefix, suffix)
    ensures Untouched(feats[0], feats[1..], prefix, suffix)
    ensures Untouched(prefix + feats[0] + suffix, feats[1..], prefix, suffix)
  {
    var f0, rest := feats[0], feats[1..];
    forall i, j | 0 <= i < |rest| && 0 <= j < |rest| && i != j
      ensures prefix + rest[i] + suffix != rest[j]
    {
      assert feats[i + 1] == rest[i] && feats[j + 1] == rest[j];
    }
    forall k | k == f0 || k == prefix + f0 + suffix
      ensures Untouched(k, rest, prefix, suffix)
    {
      forall g | g in rest ensures k != g && k != prefix + g + suffix {
        var j :| 0 <= j < |rest| && rest[j] == g;
        assert feats[j + 1] == g;
        if prefix + f0 + suffix == prefix + g + suffix {
          AffixInjective(prefix, f0, g, suffix);
        }
      }
    }
  }

  // ---------------------------------------------------------------------------
  // The encoder object
  // ---------------------------------------------------------------------------

  /** One row of the `information_values` table. */
  datatype IvRow = IvRow(feature: string, informationValue: real, description: Option<string>)

  class WeightofEvidenceEncoder {
    const feats: seq<string>
    const dropOriginal: bool
    const fillna: Option<real>
    const prefix: string
    const suffix: string

    /** `transform_dict["woe"]` and `transform_dict["iv"]`. */
    var woeTables: WoeTables
    var ivTables: IvTables
    var isFitted: bool

    /** A fitted encoder holds both tables of every configured feature. */
    ghost predicate Valid()
      reads this
    {
      isFitted ==> forall f :: f in feats ==> f in woeTables && f in ivTables
    }

    constructor (feats: seq<string>, dropOriginal: bool := false, fillna: Option<real> := None,
                 prefix: string := "woe_", suffix: string := "")
      ensures Valid()
      ensures this.feats == feats && this.dropOriginal == dropOriginal && this.fillna == fillna
      ensures this.prefix == prefix && this.suffix == suffix
      ensures woeTables == map[] && ivTables == map[] && !isFitted
    {
      this.feats := feats;
      this.dropOriginal := dropOriginal;
      this.fillna := fillna;
      this.prefix := prefix;
      this.suffix := suffix;
      woeTables := map[];
      ivTables := map[];
      isFitted := false;
    }

    /**
     * Fit every configured feature of `X` against the target `y`; `ln` is the
     * natural logarithm. The encoder becomes fitted when no feature raises.
     */
    method Fit(X: DataFrame, y: seq<int>, ln: real -> real) returns (outcome: Outcome<Error>)
      requires Valid()
      modifies this
      ensures Valid()
      ensures var s := FitAll(X.columns, y, feats, fillna, ln, old(woeTables), old(ivTables));
        woeTables == s.woe && ivTables == s.iv && outcome == s.outcome
      ensures isFitted == (outcome.Pass? || old(isFitted))
    {
      var i := 0;
      while i < |feats|
        invariant 0 <= i <= |feats|
        invariant FitAll(X.columns, y, feats[i..], fillna, ln, woeTables, ivTables)
               == FitAll(X.columns, y, feats, fillna, ln, old(woeTables), old(ivTables))
        invariant isFitted == old(isFitted)
        invariant old(woeTables).Keys <= woeTables.Keys && old(ivTables).Keys <= ivTables.Keys
      {
        var feat := feats[i];
        FitAllUnfold(X.columns, y, feats, i, fillna, ln, woeTables, ivTables);
        var r := FitFeature(X.columns, y, feat, fillna, ln);
        if r.Failure? {
          return Fail(r.error);
        }
        woeTables := woeTables[feat := r.value.woe];
        ivTables := ivTables[feat := r.value.iv];
        i := i + 1;
      }
      FitAllCovers(X.columns, y, feats, fillna, ln, old(woeTables), old(ivTables));
      isFitted := true;
      return Pass;
    }

    /**
     * Encode the configured features of `X` in place. An unfitted encoder
     * raises and leaves `X` as it was.
     */
    method Transform(X: DataFrame) returns (outcome: Outcome<Error>)
      requires Valid()
      modifies X
      ensures !isFitted ==> outcome == Fail(NotFitted) && X.columns == old(X.columns)
      ensures isFitted ==>
        var a := ApplyAll(old(X.columns), feats, woeTables, prefix, suffix, dropOriginal);
        X.columns == a.columns && outcome == a.outcome
    {
      if !isFitted {
        return Fail(NotFitted);
      }
      var i := 0;
      while i < |feats|
        invariant 0 <= i <= |feats|
        invariant ApplyAll(X.columns, feats[i..], woeTables, prefix, suffix, dropOriginal)
               == ApplyAll(old(X.columns), feats, woeTables, prefix, suffix, dropOriginal)
      {
        var feat := feats[i];
        assert feats[i..] == [feat] + feats[i + 1..];
        if feat !in X.columns {
          return Fail(KeyError(feat));
        }
        X.columns := X.columns[prefix + feat + suffix := EncodeColumn(X.columns[feat], woeTables[feat])];
        if dropOriginal && prefix + suffix != "" {
          X.columns := X.columns - {feat};
        }
        i := i + 1;
      }
      return Pass;
    }

    /**
     * One row per configured feature: its information value and, when asked
     * for, its predictive-power description. An unfitted encoder raises.
     */
    method InformationValues(addDescription: bool := true) returns (r: Result<seq<IvRow>, Error>)
      requires Valid()
      ensures !isFitted ==> r == Failure(NotFitted)
      ensures isFitted ==> r.Success? && |r.value| == |feats|
      ensures isFitted ==> forall i :: 0 <= i < |feats| ==>
        var v := InformationValue(ivTables[feats[i]]);
        r.value[i] == IvRow(feats[i], v, if addDescription then Some(AddDescription(v)) else None)
    {
      if !isFitted {
        return Failure(NotFitted);
      }
      var rows: seq<IvRow> := [];
      for i := 0 to |feats|
        invariant |rows| == i
        invariant forall j :: 0 <= j < i ==>
          var v := InformationValue(ivTables[feats[j]]);
          rows[j] == IvRow(feats[j], v, if addDescription then Some(AddDescription(v)) else None)
      {
        var total := SeriesSum(ivTables[feats[i]]);
        rows := rows + [IvRow(feats[i], total, if addDescription then Some(AddDescription(total)) else None)];
      }
      return Success(rows);
    }
  }
}
