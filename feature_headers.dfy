/** The feature-header loop of train_hat_male.py (lines 101-104): one column
    name "TFIDF_<x>" per TF-IDF dimension x. */
module FeatureHeaders {
  import opened Decimal

  const Prefix: string := "TFIDF_"

  /** Two headers are equal only when they name the same dimension. */
  lemma HeaderInjective(a: nat, b: nat)
    ensures Prefix + NatToDecimal(a) == Prefix + NatToDecimal(b) <==> a == b
  {
    if Prefix + NatToDecimal(a) == Prefix + NatToDecimal(b) {
      assert NatToDecimal(a) == (Prefix + NatToDecimal(a))[|Prefix|..];
      assert NatToDecimal(b) == (Prefix + NatToDecimal(b))[|Prefix|..];
      NatToDecimalInjective(a, b);
    }
  }

  /** A list whose x-th entry is the header of dimension x has no repeats. */
  lemma HeadersDistinct(names: seq<string>)
    requires forall x :: 0 <= x < |names| ==> names[x] == Prefix + NatToDecimal(x)
    ensures forall x, y :: 0 <= x < y < |names| ==> names[x] != names[y]
  {
    forall x, y | 0 <= x < y < |names| ensures names[x] != names[y] {
      HeaderInjective(x, y);
    }
  }

  /** Appending the header of dimension x to the headers of 0..x-1 gives
      the headers of 0..x. */
  lemma HeadersAppend(names: seq<string>, x: nat)
    requires |names| == x
    requires forall k :: 0 <= k < x ==> names[k] == Prefix + NatToDecimal(k)
    ensures forall k :: 0 <= k < x + 1 ==> (names + [Prefix + NatToDecimal(x)])[k] == Prefix + NatToDecimal(k)
  {
  }

  /** `FeatureNames = []`, then `FeatureNames.append("TFIDF_" + str(x))` for
      x in `range(0, dimension)`. */
  method BuildFeatureNames(dimension: nat) returns (names: seq<string>)
    ensures |names| == dimension
    ensures forall x :: 0 <= x < dimension ==> names[x] == Prefix + NatToDecimal(x)
    ensures forall x, y :: 0 <= x < y < dimension ==> names[x] != names[y]
  {
    names := [];
    for x := 0 to dimension
      invariant |names| == x
      invariant forall k :: 0 <= k < x ==> names[k] == Prefix + NatToDecimal(k)
    {
      HeadersAppend(names, x);
      names := names + [Prefix + NatToDecimal(x)];
    }
    HeadersDistinct(names);
  }
}
