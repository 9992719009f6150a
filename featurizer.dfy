/**
 * The label-encoding part of `Featurizer`: fitting a dictionary per
 * configured column, applying the fitted encoders to a table in place, and the
 * `fit`/`transform` orchestration that runs label encoding only when it is
 * configured and fitted.
 */
module FeatureEngineering {
  import opened Wrappers
  import opened Frame
  import opened LabelEncoding

  type Dictionaries = map<string, map<Cell, int>>

  // ---------------------------------------------------------------------------
  // Fitting the label encoders, column by column
  // ---------------------------------------------------------------------------

  /** The dictionaries and the fitted encoders after fitting, and whether it raised. */
  datatype EncoderFit = EncoderFit(dict: Dictionaries, fitted: set<string>, outcome: Outcome<Error>)

  /** Fit a dictionary for each of `names` in order; a column missing from the table stops the fit. */
  function FitCodes(columns: map<string, Column>, names: seq<string>, dict: Dictionaries, fitted: set<string>)
    : (s: EncoderFit)
    ensures fitted <= s.fitted
    ensures s.outcome.Fail? ==> exists n :: n in names && n !in columns && s.outcome.error == KeyError(n)
    decreases |names|
  {
    if names == [] then EncoderFit(dict, fitted, Pass)
    else if names[0] !in columns then EncoderFit(dict, fitted, Fail(KeyError(names[0])))
    else FitCodes(columns, names[1..], dict[names[0] := Codes(columns[names[0]])], fitted + {names[0]})
  }

  /**
   * Fitting succeeds exactly when every named column exists; each fitted
   * column's dictionary is rebuilt from scratch from that column, other
   * dictionaries are kept, and a column gets an encoder only with a dictionary.
   */
  lemma {:induction false} FitCodesResult(columns: map<string, Column>, names: seq<string>, dict: Dictionaries,
                                          fitted: set<string>)
    requires fitted <= dict.Keys
    ensures var s := FitCodes(columns, names, dict, fitted);
      && fitted <= s.fitted <= s.dict.Keys
      && (forall n :: n in s.fitted ==> n in fitted || n in names)
      && (s.outcome.Pass? <==> forall n :: n in names ==> n in columns)
      && (s.outcome.Pass? ==> forall n :: n in names ==> n in s.fitted && s.dict[n] == Codes(columns[n]))
      && (forall k :: k !in names ==> (k in s.dict <==> k in dict) && (k in dict ==> s.dict[k] == dict[k]))
    decreases |names|
  {
    if names != [] {
      var n0 := names[0];
      assert forall n :: n in names <==> n == n0 || n in names[1..] by {
        assert names == [n0] + names[1..];
      }
      if n0 in columns {
        FitCodesResult(columns, names[1..], dict[n0 := Codes(columns[n0])], fitted + {n0});
      }
    }
  }

  // ---------------------------------------------------------------------------
  // Applying the label encoders, column by column
  // ---------------------------------------------------------------------------

  /** The columns after label encoding, and whether it raised. */
  datatype Encoded = Encoded(columns: map<string, Column>, outcome: Outcome<Error>)

  /**
   * Replace each of `names` in order by its codes: reading a missing column or
   * a column without an encoder raises and stops the transform.
   */
  function EncodeAll(columns: map<string, Column>, names: seq<string>, fitted: set<string>, dict: Dictionaries)
    : (e: Encoded)
    requires fitted <= dict.Keys
    ensures e.columns.Keys == columns.Keys
    ensures e.outcome.Fail? ==>
      exists n :: n in names && (n !in columns || n !in fitted) && e.outcome.error == KeyError(n)
    decreases |names|
  {
    if names == [] then Encoded(columns, Pass)
    else
      var n := names[0];
      if n !in columns || n !in fitted then Encoded(columns, Fail(KeyError(n)))
      else EncodeAll(columns[n := Encode(dict[n], columns[n])], names[1..], fitted, dict)
  }

  /** Label encoding changes only the named columns, and adds or removes none. */
  lemma {:induction false} EncodeAllScope(columns: map<string, Column>, names: seq<string>, fitted: set<string>,
                                          dict: Dictionaries)
    requires fitted <= dict.Keys
    ensures var e := EncodeAll(columns, names, fitted, dict);
      && e.columns.Keys == columns.Keys
      && forall k :: k in columns && k !in names ==> e.columns[k] == columns[k]
    decreases |names|
  {
    if names != [] {
      var n := names[0];
      if n in columns && n in fitted {
        EncodeAllScope(columns[n := Encode(dict[n], columns[n])], names[1..], fitted, dict);
        assert forall k :: k !in names ==> k != n && k !in names[1..] by {
          assert names == [n] + names[1..];
        }
      }
    }
  }

  /**
   * With distinct names, all present and fitted, label encoding succeeds and
   * each named column holds the codes of its original values.
   */
  lemma {:induction false} EncodeAllEncodes(columns: map<string, Column>, names: seq<string>, fitted: set<string>,
                                            dict: Dictionaries)
    requires fitted <= dict.Keys
    requires forall n :: n in names ==> n in columns && n in fitted
    requires forall i, j :: 0 <= i < j < |names| ==> names[i] != names[j]
    ensures var e := EncodeAll(columns, names, fitted, dict);
      && e.outcome == Pass
      && forall n :: n in names ==> n in e.columns && e.columns[n] == Encode(dict[n], columns[n])
    decreases |names|
  {
    if names != [] {
      var n0 := names[0];
      var rest := names[1..];
      assert n0 in names;
      assert forall n :: n in names <==> n == n0 || n in rest by {
        assert names == [n0] + rest;
      }
      var c := columns[n0 := Encode(dict[n0], columns[n0])];
      assert n0 !in rest;
      forall n | n in rest ensures n in c && c[n] == columns[n] { }
      EncodeAllEncodes(c, rest, fitted, dict);
      EncodeAllScope(c, rest, fitted, dict);
    }
  }

  /** Writing a key twice keeps only the second value. */
  lemma Overwrite<K, V>(m: map<K, V>, k: K, a: V, b: V)
    ensures m[k := a][k := b] == m[k := b]
  {
  }

  // ---------------------------------------------------------------------------
  // The featurizer object
  // ---------------------------------------------------------------------------

  class Featurizer {
    /** `label_encoder_columns`; `None` switches label encoding off. */
    const labelEncoderColumns: Option<seq<string>>
    /** `label_encoders`: the columns that have an encoder, `None` until fitted. */
    var labelEncoders: Option<set<string>>
    /** `label_encoding_dict`: per column, each value's code. */
    var labelEncodingDict: Dictionaries

    /** Encoders exist only when configured, and each has its dictionary. */
    ghost predicate Valid()
      reads this
    {
      labelEncoders.Some? ==> labelEncoderColumns.Some? && labelEncoders.value <= labelEncodingDict.Keys
    }

    constructor (labelEncoderColumns: Option<seq<string>> := None)
      ensures Valid()
      ensures this.labelEncoderColumns == labelEncoderColumns
      ensures labelEncoders == None && labelEncodingDict == map[]
    {
      this.labelEncoderColumns := labelEncoderColumns;
      labelEncoders := None;
      labelEncodingDict := map[];
    }

    /** Rebuild the dictionary of column `name` from `series`, one distinct value at a time. */
    method FitLabelEncoder(name: string, series: Column)
      requires Valid()
      modifies this
      ensures Valid()
      ensures labelEncodingDict == old(labelEncodingDict)[name := Codes(series)]
      ensures labelEncoders == old(labelEncoders)
    {
      labelEncodingDict := labelEncodingDict[name := map[]];
      var u := Unique(series);
      for i := 0 to |u|
        invariant labelEncodingDict == old(labelEncodingDict)[name := Ranks(u, i)]
        invariant labelEncoders == old(labelEncoders)
      {
        Overwrite(old(labelEncodingDict), name, Ranks(u, i), Ranks(u, i + 1));
        labelEncodingDict := labelEncodingDict[name := labelEncodingDict[name][u[i] := i]];
      }
    }

    /** Fit an encoder for every configured column of `X`, starting from no encoders. */
    method FitLabelEncoders(X: DataFrame) returns (outcome: Outcome<Error>)
      requires Valid() && labelEncoderColumns.Some?
      modifies this
      ensures Valid() && labelEncoders.Some?
      ensures var s := FitCodes(X.columns, labelEncoderColumns.value, old(labelEncodingDict), {});
        labelEncodingDict == s.dict && labelEncoders.value == s.fitted && outcome == s.outcome
    {
      labelEncoders := Some({});
      var names := labelEncoderColumns.value;
      for i := 0 to |names|
        invariant Valid() && labelEncoders.Some?
        invariant FitCodes(X.columns, names[i..], labelEncodingDict, labelEncoders.value)
               == FitCodes(X.columns, names, old(labelEncodingDict), {})
      {
        var name := names[i];
        assert names[i..] == [name] + names[i + 1..];
        if name !in X.columns {
          return Fail(KeyError(name));
        }
        FitLabelEncoder(name, X.columns[name]);
        labelEncoders := Some(labelEncoders.value + {name});
      }
      return Pass;
    }

    /** Apply the encoder of column `name` to `series`: its codes, -1 for unseen values. */
    function TransformLabelEncoder(name: string, series: Column): (r: Result<Column, Error>)
      reads this
      requires Valid() && labelEncoders.Some?
      ensures name !in labelEncoders.value <==> r == Failure(KeyError(name))
      ensures r.Success? ==> r.value == Encode(labelEncodingDict[name], series)
    {
      if name !in labelEncoders.value then Failure(KeyError(name))
      else Success(Encode(labelEncodingDict[name], series))
    }

    /** Replace every configured column of `X`, in place, by its codes. */
    method TransformLabelEncoders(X: DataFrame) returns (outcome: Outcome<Error>)
      requires Valid() && labelEncoders.Some?
      modifies X
      ensures var e := EncodeAll(old(X.columns), labelEncoderColumns.value, labelEncoders.value, labelEncodingDict);
        X.columns == e.columns && outcome == e.outcome
    {
      var names := labelEncoderColumns.value;
      for i := 0 to |names|
        invariant EncodeAll(X.columns, names[i..], labelEncoders.value, labelEncodingDict)
               == EncodeAll(old(X.columns), names, labelEncoders.value, labelEncodingDict)
      {
        var name := names[i];
        assert names[i..] == [name] + names[i + 1..];
        if name !in X.columns {
          return Fail(KeyError(name));
        }
        var r := TransformLabelEncoder(name, X.columns[name]);
        if r.Failure? {
          return Fail(r.error);
        }
        X.columns := X.columns[name := r.value];
      }
      return Pass;
    }

    /** Fit the label encoders when label encoding is configured; `X` itself is never changed. */
    method Fit(X: DataFrame) returns (outcome: Outcome<Error>)
      requires Valid()
      modifies this
      ensures Valid() && unchanged(X)
      ensures labelEncoderColumns.None? ==>
        outcome == Pass && labelEncoders == old(labelEncoders) && labelEncodingDict == old(labelEncodingDict)
      ensures labelEncoderColumns.Some? ==> labelEncoders.Some?
      ensures labelEncoderColumns.Some? ==>
        var s := FitCodes(X.columns, labelEncoderColumns.value, old(labelEncodingDict), {});
        labelEncodingDict == s.dict && labelEncoders.value == s.fitted && outcome == s.outcome
    {
      outcome := Pass;
      if labelEncoderColumns.Some? {
        outcome := FitLabelEncoders(X);
      }
    }

    /** Label-encode `X` in place when the label encoders were fitted; otherwise leave it alone. */
    method Transform(X: DataFrame) returns (outcome: Outcome<Error>)
      requires Valid()
      modifies X
      ensures labelEncoders.None? ==> outcome == Pass && X.columns == old(X.columns)
      ensures labelEncoders.Some? ==>
        var e := EncodeAll(old(X.columns), labelEncoderColumns.value, labelEncoders.value, labelEncodingDict);
        X.columns == e.columns && outcome == e.outcome
    {
      outcome := Pass;
      if labelEncoders.Some? {
        outcome := TransformLabelEncoders(X);
      }
    }
  }

  /**
   * A featurizer built without label-encoder columns fits and transforms
   * without touching the table.
   */
  method FitTransformUnconfigured(X: DataFrame) returns (fitOutcome: Outcome<Error>, transformOutcome: Outcome<Error>)
    modifies X
    ensures fitOutcome == Pass && transformOutcome == Pass
    ensures X.columns == old(X.columns)
  {
    var f := new Featurizer();
    fitOutcome := f.Fit(X);
    transformOutcome := f.Transform(X);
  }
}
