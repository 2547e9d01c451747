/**
 * The fan-out stage (computeSpearman), without its goroutines: once the table
 * is complete, the query gene's vector is read once and every other gene of
 * the table yields exactly one result, pairing its vector with the query's.
 * The order the table's keys are visited in is a parameter, since a Go map
 * has none; the results, taken as a multiset, do not depend on it.
 */
module SpearmanFanOut {
  import opened Types
  import opened Results
  import opened Decimal
  import opened Aggregator

  /** The rank statistic, kept abstract: (target values, query values) to (rho, p). */
  type Spearman = (seq<Float64>, seq<Float64>) -> (Float64, Float64)

  /** A visiting order of a map: every key exactly once. */
  predicate Enumerates(order: seq<Int64>, keys: set<Int64>) {
    && (forall i, j :: 0 <= i < j < |order| ==> order[i] != order[j])
    && (forall i :: 0 <= i < |order| ==> order[i] in keys)
    && (forall k :: k in keys ==> k in order)
  }

  /**
   * The result for target gene g: an id that reads back as g, and Spearman of
   * g's vector (first) against the query gene's vector, which is the empty
   * (nil) slice when the query gene is not in the table.
   */
  function Correlate(t: GeneTable, q: Int64, g: Int64, spearman: Spearman): (c: CoExpression)
    requires g in t
    ensures ParseInt(c.geneticEntityId) == Some(g as int)
    ensures q in t ==> (c.spearman, c.pValue) == spearman(t[g], t[q])
    ensures q !in t ==> (c.spearman, c.pValue) == spearman(t[g], [])
  {
    FormatIntRoundTrip(g);
    var (rho, p) := spearman(t[g], Vector(t, q));
    CoExpression(FormatInt(g), rho, p)
  }

  /** One result per visited key, skipping the query gene, in visiting order. */
  function FanOut(t: GeneTable, q: Int64, order: seq<Int64>, spearman: Spearman): (r: seq<CoExpression>)
    requires forall i :: 0 <= i < |order| ==> order[i] in t
    ensures |r| <= |order|
    ensures forall c :: c in r ==> c.geneticEntityId != FormatInt(q)
  {
    if |order| == 0 then []
    else
      var head := if order[0] == q then [] else (FormatIntInjective(order[0], q); [Correlate(t, q, order[0], spearman)]);
      head + FanOut(t, q, order[1..], spearman)
  }

  /** What the stage must produce: the result of every gene of the table other than the query. */
  function Expected(t: GeneTable, q: Int64, spearman: Spearman): set<CoExpression> {
    set g | g in t && g != q :: Correlate(t, q, g, spearman)
  }

  ghost predicate Distinct<T>(s: seq<T>) {
    forall i, j :: 0 <= i < j < |s| ==> s[i] != s[j]
  }

  /** A sequence without repeats holds each of its elements exactly once. */
  lemma {:induction false} DistinctMultiset<T>(s: seq<T>)
    requires Distinct(s)
    ensures multiset(s) == multiset(set x | x in s)
    decreases |s|
  {
    if |s| > 0 {
      var rest := s[1..];
      assert Distinct(rest);
      DistinctMultiset(rest);
      assert s == [s[0]] + rest;
      assert s[0] !in rest;
      assert (set x | x in s) == {s[0]} + (set x | x in rest);
    }
  }

  lemma {:induction false} FanOutMembers(t: GeneTable, q: Int64, order: seq<Int64>, spearman: Spearman)
    requires forall i :: 0 <= i < |order| ==> order[i] in t
    ensures forall c :: c in FanOut(t, q, order, spearman) <==>
      exists i :: 0 <= i < |order| && order[i] != q && c == Correlate(t, q, order[i], spearman)
    decreases |order|
  {
    if |order| > 0 {
      FanOutMembers(t, q, order[1..], spearman);
      forall c ensures c in FanOut(t, q, order, spearman) <==>
        exists i :: 0 <= i < |order| && order[i] != q && c == Correlate(t, q, order[i], spearman)
      {
        if c in FanOut(t, q, order[1..], spearman) {
          var i :| 0 <= i < |order[1..]| && order[1..][i] != q && c == Correlate(t, q, order[1..][i], spearman);
          assert order[i + 1] == order[1..][i];
        }
        if exists i :: 0 <= i < |order| && order[i] != q && c == Correlate(t, q, order[i], spearman) {
          var i :| 0 <= i < |order| && order[i] != q && c == Correlate(t, q, order[i], spearman);
          if i > 0 {
            assert order[1..][i - 1] == order[i];
          }
        }
      }
    }
  }

  lemma {:induction false} FanOutDistinct(t: GeneTable, q: Int64, order: seq<Int64>, spearman: Spearman)
    requires forall i :: 0 <= i < |order| ==> order[i] in t
    requires Distinct(order)
    ensures Distinct(FanOut(t, q, order, spearman))
    decreases |order|
  {
    if |order| > 0 {
      var rest := FanOut(t, q, order[1..], spearman);
      assert Distinct(order[1..]);
      FanOutDistinct(t, q, order[1..], spearman);
      if order[0] != q {
        FanOutMembers(t, q, order[1..], spearman);
        var c0 := Correlate(t, q, order[0], spearman);
        assert c0 !in rest by {
          forall i | 0 <= i < |order[1..]| ensures Correlate(t, q, order[1..][i], spearman) != c0 {
            assert order[1..][i] != order[0];
          }
        }
      }
    }
  }

  /**
   * Whatever order the keys are visited in, the stage yields exactly the results
   * of the non-query genes, each once.
   */
  lemma FanOutIsExpected(t: GeneTable, q: Int64, order: seq<Int64>, spearman: Spearman)
    requires Enumerates(order, t.Keys)
    ensures multiset(FanOut(t, q, order, spearman)) == multiset(Expected(t, q, spearman))
  {
    var r := FanOut(t, q, order, spearman);
    FanOutDistinct(t, q, order, spearman);
    DistinctMultiset(r);
    FanOutMembers(t, q, order, spearman);
    var elems := set c | c in r;
    forall c | c in Expected(t, q, spearman) ensures c in elems {
      var g :| g in t && g != q && c == Correlate(t, q, g, spearman);
      var i :| 0 <= i < |order| && order[i] == g;
    }
    assert elems == Expected(t, q, spearman);
  }

  /** Two visiting orders of the same table give the same results, up to order. */
  lemma OrderIndependent(t: GeneTable, q: Int64, o1: seq<Int64>, o2: seq<Int64>, spearman: Spearman)
    requires Enumerates(o1, t.Keys) && Enumerates(o2, t.Keys)
    ensures multiset(FanOut(t, q, o1, spearman)) == multiset(FanOut(t, q, o2, spearman))
  {
    FanOutIsExpected(t, q, o1, spearman);
    FanOutIsExpected(t, q, o2, spearman);
  }

  /** The number of results carrying this id. */
  function CountId(r: seq<CoExpression>, id: string): nat {
    if |r| == 0 then 0 else (if r[0].geneticEntityId == id then 1 else 0) + CountId(r[1..], id)
  }

  lemma {:induction false} CountIdFanOut(t: GeneTable, q: Int64, order: seq<Int64>, g: Int64, spearman: Spearman)
    requires forall i :: 0 <= i < |order| ==> order[i] in t
    requires Distinct(order)
    ensures CountId(FanOut(t, q, order, spearman), FormatInt(g)) == if g in order && g != q then 1 else 0
    decreases |order|
  {
    if |order| > 0 {
      var rest := order[1..];
      assert Distinct(rest);
      CountIdFanOut(t, q, rest, g, spearman);
      var r := FanOut(t, q, order, spearman);
      var rr := FanOut(t, q, rest, spearman);
      if order[0] == q {
        assert r == rr;
        assert g in order && g != q <==> g in rest && g != q;
      } else {
        var c0 := Correlate(t, q, order[0], spearman);
        assert r == [c0] + rr;
        assert r[1..] == rr;
        FormatIntInjective(order[0], g);
        if order[0] == g {
          assert g !in rest;
        } else {
          assert g in order <==> g in rest;
        }
      }
    }
  }

  /**
   * Exactly one result per gene of the table other than the query gene, and
   * none for the query gene or for an id the table does not hold; the results
   * number one fewer than the keys when the query gene is a key.
   */
  lemma OneResultPerGene(t: GeneTable, q: Int64, order: seq<Int64>, spearman: Spearman)
    requires Enumerates(order, t.Keys)
    ensures forall g :: g in t && g != q ==> CountId(FanOut(t, q, order, spearman), FormatInt(g)) == 1
    ensures forall g :: g !in t || g == q ==> CountId(FanOut(t, q, order, spearman), FormatInt(g)) == 0
    ensures |FanOut(t, q, order, spearman)| == |t.Keys - {q}|
  {
    forall g ensures CountId(FanOut(t, q, order, spearman), FormatInt(g)) == if g in t && g != q then 1 else 0 {
      CountIdFanOut(t, q, order, g, spearman);
    }
    FanOutIsExpected(t, q, order, spearman);
    ExpectedSize(t, q, spearman);
    assert |multiset(FanOut(t, q, order, spearman))| == |multiset(Expected(t, q, spearman))|;
  }

  /** The expected results are as many as the non-query genes, since ids are distinct. */
  lemma ExpectedSize(t: GeneTable, q: Int64, spearman: Spearman)
    ensures |Expected(t, q, spearman)| == |t.Keys - {q}|
  {
    var genes := t.Keys - {q};
    ImageSize(t, q, genes, spearman);
    assert Expected(t, q, spearman) == set g | g in genes :: Correlate(t, q, g, spearman);
  }

  lemma {:induction false} ImageSize(t: GeneTable, q: Int64, genes: set<Int64>, spearman: Spearman)
    requires genes <= t.Keys - {q}
    ensures |set g | g in genes :: Correlate(t, q, g, spearman)| == |genes|
    decreases genes
  {
    if genes != {} {
      var g :| g in genes;
      var rest := genes - {g};
      ImageSize(t, q, rest, spearman);
      var img := set h | h in genes :: Correlate(t, q, h, spearman);
      var imgRest := set h | h in rest :: Correlate(t, q, h, spearman);
      var c := Correlate(t, q, g, spearman);
      assert img == imgRest + {c};
      assert c !in imgRest by {
        forall h | h in rest ensures Correlate(t, q, h, spearman) != c {
          assert ParseInt(Correlate(t, q, h, spearman).geneticEntityId) != ParseInt(c.geneticEntityId);
        }
      }
    }
  }
}
