/**
 * The label encoder of `Featurizer`: a code per distinct value of a column in
 * order of first appearance, and the transform that maps values to codes,
 * with -1 for values not seen at fit time.
 */
module LabelEncoding {
  import opened Frame

  /** The distinct values of `s` in order of first appearance: pandas `Series.unique()`. */
  function Unique(s: seq<Cell>): (u: seq<Cell>)
    ensures forall i, j :: 0 <= i < j < |u| ==> u[i] != u[j]
    ensures forall v :: v in u <==> v in s
    ensures |s| > 0 ==> |u| > 0 && u[0] == s[0]
    ensures |u| <= |s|
  {
    if s == [] then []
    else
      var p := Unique(s[..|s| - 1]);
      var v := s[|s| - 1];
      if v in p then p else p + [v]
  }

  /** The position at which `v` first appears in `s`. */
  function FirstIndex(s: seq<Cell>, v: Cell): (k: nat)
    requires v in s
    ensures k < |s| && s[k] == v
    ensures forall j :: 0 <= j < k ==> s[j] != v
  {
    if s[0] == v then 0 else 1 + FirstIndex(s[1..], v)
  }

  /** A first appearance in a prefix is the first appearance in the whole column. */
  lemma FirstIndexPrefix(s: seq<Cell>, n: nat, v: Cell)
    requires n <= |s| && v in s[..n]
    ensures FirstIndex(s, v) == FirstIndex(s[..n], v)
  {
    var k := FirstIndex(s[..n], v);
    assert s[k] == v;
  }

  /**
   * `Unique` lists the distinct values in the order in which they first
   * appear: earlier in `Unique(s)` means earlier first appearance in `s`.
   */
  lemma {:induction false} UniqueFirstAppearance(s: seq<Cell>)
    ensures forall i, j :: 0 <= i < j < |Unique(s)| ==> FirstIndex(s, Unique(s)[i]) < FirstIndex(s, Unique(s)[j])
  {
    if s != [] {
      var n := |s| - 1;
      var p := Unique(s[..n]);
      UniqueFirstAppearance(s[..n]);
      var u := Unique(s);
      forall i, j | 0 <= i < j < |u| ensures FirstIndex(s, u[i]) < FirstIndex(s, u[j]) {
        assert u[i] in s[..n] by { assert u[i] == p[i]; }
        FirstIndexPrefix(s, n, u[i]);
        if j < |p| {
          assert u[j] == p[j];
          FirstIndexPrefix(s, n, u[j]);
        } else {
          assert u[j] == s[n] && s[n] !in s[..n];
        }
      }
    }
  }

  /** The number of distinct values of `s`. */
  lemma {:induction false} UniqueCount(s: seq<Cell>)
    ensures |Unique(s)| == |set v | v in s|
  {
    if s != [] {
      var n := |s| - 1;
      UniqueCount(s[..n]);
      assert (set v | v in s) == (set v | v in s[..n]) + {s[n]} by {
        assert s == s[..n] + [s[n]];
      }
    }
  }

  /** The fitted dictionary: each distinct value of `s` to its rank of first appearance. */
  function Codes(s: seq<Cell>): (codes: map<Cell, int>)
    ensures forall v :: v in codes <==> v in s
    ensures forall i :: 0 <= i < |Unique(s)| ==> codes[Unique(s)[i]] == i
  {
    var u := Unique(s);
    RanksSpec(u, |u|);
    Ranks(u, |u|)
  }

  /** The first `n` values of `u`, each to its position, entered one at a time. */
  function Ranks(u: seq<Cell>, n: nat): map<Cell, int>
    requires n <= |u|
  {
    if n == 0 then map[] else Ranks(u, n - 1)[u[n - 1] := n - 1]
  }

  /** When `u` has no duplicates, `Ranks(u, n)` maps each of its first `n` values to its position, and nothing else. */
  lemma {:induction false} RanksSpec(u: seq<Cell>, n: nat)
    requires n <= |u|
    requires forall i, j :: 0 <= i < j < |u| ==> u[i] != u[j]
    ensures forall i :: 0 <= i < n ==> u[i] in Ranks(u, n) && Ranks(u, n)[u[i]] == i
    ensures forall v :: v in Ranks(u, n) ==> 0 <= Ranks(u, n)[v] < n && u[Ranks(u, n)[v]] == v
  {
    if n > 0 {
      RanksSpec(u, n - 1);
    }
  }

  /**
   * The codes of a fitted column are 0 .. k-1 for its k distinct values, the
   * first row's value gets 0, distinct values get distinct codes, and codes
   * follow the order of first appearance.
   */
  lemma CodesProperties(s: seq<Cell>)
    ensures var codes := Codes(s);
      && (forall v :: v in codes ==> 0 <= codes[v] < |set w | w in s|)
      && (|s| > 0 ==> codes[s[0]] == 0)
      && (forall v, w :: v in codes && w in codes && v != w ==> codes[v] != codes[w])
      && (forall v, w :: v in codes && w in codes ==> (codes[v] < codes[w] <==> FirstIndex(s, v) < FirstIndex(s, w)))
  {
    var u := Unique(s);
    var codes := Codes(s);
    UniqueCount(s);
    UniqueFirstAppearance(s);
    forall v | v in codes ensures 0 <= codes[v] < |u| && u[codes[v]] == v {
      var i :| 0 <= i < |u| && u[i] == v;
    }
    forall v, w | v in codes && w in codes
      ensures codes[v] < codes[w] <==> FirstIndex(s, v) < FirstIndex(s, w)
    {
      var i, j := codes[v], codes[w];
      assert u[i] == v && u[j] == w;
      if i > j {
        assert FirstIndex(s, u[j]) < FirstIndex(s, u[i]);
      }
    }
  }

  /** The `label_encoder` closure: each value's code, -1 for a value the dictionary lacks. */
  function Encode(codes: map<Cell, int>, s: seq<Cell>): (r: seq<Cell>)
    ensures |r| == |s|
  {
    seq(|s|, i requires 0 <= i < |s| => if s[i] in codes then Int(codes[s[i]]) else Int(-1))
  }

  /**
   * Encoding with the dictionary fitted on `train` gives every row a code in
   * -1 .. k-1; -1 exactly for values not seen in `train`, and otherwise the
   * code decodes back to the row's value through `Unique(train)`.
   */
  lemma EncodeFitted(train: seq<Cell>, s: seq<Cell>)
    ensures var r := Encode(Codes(train), s);
      forall i :: 0 <= i < |s| ==>
        && r[i].Int? && -1 <= r[i].n < |Unique(train)|
        && (r[i].n == -1 <==> s[i] !in train)
        && (r[i].n >= 0 ==> Unique(train)[r[i].n] == s[i])
  {
    var u := Unique(train);
    var codes := Codes(train);
    forall v | v in codes ensures 0 <= codes[v] < |u| && u[codes[v]] == v {
      var i :| 0 <= i < |u| && u[i] == v;
    }
  }
}
