/**
 The bill of materials: elements appended by the entry form, the calorific
 load of each (quantity × unit mass × PCS, in MJ), its gasoline equivalent in
 litres (load / 34, rounded to an integer) and the two column totals.
 */
module Loads {
  import opened Options

  /** Energy content of gasoline used for the equivalence (MJ per litre). */
  const GasolineMjPerLitre: real := 34.0

  datatype Unit = Metre | SquareMetre

  datatype Element = Element(name: string, unit: Unit, quantity: real, mass: real, pcs: real)

  /** The entry form only accepts non-negative quantity, unit mass and PCS. */
  predicate WellFormed(e: Element)
  {
    0.0 <= e.quantity && 0.0 <= e.mass && 0.0 <= e.pcs
  }

  predicate AllWellFormed(es: seq<Element>)
  {
    forall i :: 0 <= i < |es| ==> WellFormed(es[i])
  }

  /**
   The element list after the form is sent (`submitted`) with contents `e`:
   the element is appended only when the form was sent with a non-empty name.
   */
  function Submit(es: seq<Element>, submitted: bool, e: Element): (r: seq<Element>)
    ensures !submitted || e.name == [] ==> r == es
    ensures submitted && e.name != [] ==> |r| == |es| + 1 && r[|es|] == e
    ensures |es| <= |r| && r[..|es|] == es
  {
    if submitted && e.name != [] then es + [e] else es
  }

  /** Submitting well-formed form contents keeps every element of the list well formed. */
  lemma SubmitKeepsWellFormed(es: seq<Element>, submitted: bool, e: Element)
    requires AllWellFormed(es) && WellFormed(e)
    ensures AllWellFormed(Submit(es, submitted, e))
  {
  }

  /** Calorific load of one element (MJ). */
  function Load(e: Element): (mj: real)
    ensures WellFormed(e) ==> 0.0 <= mj
    ensures e.quantity == 0.0 || e.mass == 0.0 || e.pcs == 0.0 ==> mj == 0.0
  {
    var qm := e.quantity * e.mass;
    assert WellFormed(e) ==> 0.0 <= qm;
    qm * e.pcs
  }

  /**
   Rounding to the nearest integer, ties to the even neighbour, as the
   column rounding of the results table does.
   */
  function RoundHalfEven(x: real): (n: int)
    ensures x - 0.5 <= n as real <= x + 0.5
    ensures n as real - x == 0.5 || x - n as real == 0.5 ==> n % 2 == 0
  {
    var f := x.Floor;
    var frac := x - f as real;
    if frac < 0.5 then f
    else if frac > 0.5 then f + 1
    else if f % 2 == 0 then f
    else f + 1
  }

  /** The two properties of RoundHalfEven determine its result: no other integer has them. */
  lemma RoundHalfEvenUnique(x: real, k: int)
    requires x - 0.5 <= k as real <= x + 0.5
    requires k as real - x == 0.5 || x - k as real == 0.5 ==> k % 2 == 0
    ensures k == RoundHalfEven(x)
  {
  }

  /** Gasoline equivalent of one element (litres). */
  function Litres(e: Element): (l: int)
    ensures Load(e) / GasolineMjPerLitre - 0.5 <= l as real <= Load(e) / GasolineMjPerLitre + 0.5
    ensures WellFormed(e) ==> 0 <= l
  {
    RoundHalfEven(Load(e) / GasolineMjPerLitre)
  }

  /** A load of 340 MJ is exactly 10 litres of gasoline. */
  lemma LitresExample()
    ensures Litres(Element("Câble PVC", Metre, 17.0, 1.0, 20.0)) == 10
  {
    var e := Element("Câble PVC", Metre, 17.0, 1.0, 20.0);
    assert Load(e) == 340.0;
    RoundHalfEvenUnique(10.0, 10);
  }

  /** Total calorific load of the list (MJ). */
  function TotalMj(es: seq<Element>): (mj: real)
    ensures es == [] ==> mj == 0.0
  {
    if es == [] then 0.0 else Load(es[0]) + TotalMj(es[1..])
  }

  /** The same fact as TotalMjNonNegative, stated for any list. */
  lemma WellFormedTotalNonNegative(es: seq<Element>)
    ensures AllWellFormed(es) ==> 0.0 <= TotalMj(es)
  {
    if AllWellFormed(es) {
      TotalMjNonNegative(es);
    }
  }

  /** A list of well-formed elements has a non-negative total load. */
  lemma {:induction false} TotalMjNonNegative(es: seq<Element>)
    requires AllWellFormed(es)
    ensures 0.0 <= TotalMj(es)
  {
    if es != [] {
      assert WellFormed(es[0]);
      TotalMjNonNegative(es[1..]);
    }
  }

  /** Total gasoline equivalent of the list: the sum of the rounded per-element litres. */
  function TotalLitres(es: seq<Element>): (l: int)
    ensures TotalMj(es) / GasolineMjPerLitre - |es| as real / 2.0 <= l as real
    ensures l as real <= TotalMj(es) / GasolineMjPerLitre + |es| as real / 2.0
  {
    if es == [] then 0 else Litres(es[0]) + TotalLitres(es[1..])
  }

  /** The total load of a concatenation is the sum of the totals. */
  lemma {:induction false} TotalMjAppend(a: seq<Element>, b: seq<Element>)
    ensures TotalMj(a + b) == TotalMj(a) + TotalMj(b)
  {
    if a == [] {
      assert a + b == b;
    } else {
      assert (a + b)[1..] == a[1..] + b;
      TotalMjAppend(a[1..], b);
    }
  }

  /** Taking one element out of a list removes exactly that element from its multiset. */
  lemma MultisetRemove(b: seq<Element>, j: int)
    requires 0 <= j < |b|
    ensures multiset(b[..j] + b[j + 1..]) == multiset(b) - multiset{b[j]}
  {
    assert b == b[..j] + [b[j]] + b[j + 1..];
  }

  /** Dropping the head of a list removes exactly the head from its multiset. */
  lemma MultisetTail(a: seq<Element>)
    requires 0 < |a|
    ensures multiset(a[1..]) == multiset(a) - multiset{a[0]}
  {
    assert a == [a[0]] + a[1..];
  }

  /** Taking one element out of a list removes exactly that element's load from the total. */
  lemma {:induction false} TotalMjRemove(b: seq<Element>, j: int)
    requires 0 <= j < |b|
    ensures TotalMj(b) == Load(b[j]) + TotalMj(b[..j] + b[j + 1..])
  {
    if j == 0 {
      assert b[..0] + b[1..] == b[1..];
    } else {
      var rest := b[..j] + b[j + 1..];
      assert rest[0] == b[0];
      assert rest[1..] == b[1..][..j - 1] + b[1..][j..];
      TotalMjRemove(b[1..], j - 1);
    }
  }

  /** A position at which an element of the list's multiset occurs. */
  lemma IndexOf(b: seq<Element>, x: Element) returns (j: int)
    requires x in multiset(b)
    ensures 0 <= j < |b| && b[j] == x
  {
    assert x in b;
    j :| 0 <= j < |b| && b[j] == x;
  }

  /** Matching the head of one list with an equal element of a permutation of it leaves permutations. */
  lemma PermutationTail(a: seq<Element>, b: seq<Element>, j: int)
    requires multiset(a) == multiset(b)
    requires 0 < |a| && 0 <= j < |b| && b[j] == a[0]
    ensures multiset(a[1..]) == multiset(b[..j] + b[j + 1..])
  {
    var rest := b[..j] + b[j + 1..];
    calc {
      multiset(a[1..]);
      { MultisetTail(a); }
      multiset(a) - multiset{a[0]};
      multiset(b) - multiset{b[j]};
      { MultisetRemove(b, j); }
      multiset(rest);
    }
  }

  /** The total load does not depend on the order of the list. */
  lemma {:induction false} TotalMjPermutation(a: seq<Element>, b: seq<Element>)
    requires multiset(a) == multiset(b)
    ensures TotalMj(a) == TotalMj(b)
    decreases |a|
  {
    if a == [] {
      assert |b| == |multiset(b)|;
    } else {
      var j := IndexOf(b, a[0]);
      PermutationTail(a, b, j);
      TotalMjPermutation(a[1..], b[..j] + b[j + 1..]);
      TotalMjRemove(b, j);
    }
  }

  /** Submitting adds the new element's load to the total, or leaves the total alone. */
  lemma TotalMjAfterSubmit(es: seq<Element>, submitted: bool, e: Element)
    ensures submitted && e.name != [] ==> TotalMj(Submit(es, submitted, e)) == TotalMj(es) + Load(e)
    ensures !submitted || e.name == [] ==> TotalMj(Submit(es, submitted, e)) == TotalMj(es)
  {
    if submitted && e.name != [] {
      TotalMjAppend(es, [e]);
      assert TotalMj([e]) == Load(e);
    }
  }

  /**
   Summing the rounded per-element litres is not the same as rounding the
   total: two loads of 17 MJ each round to 0 litres apiece (17 / 34 is a tie,
   rounded to the even 0), while their 34 MJ total is 1 litre.
   */
  lemma TotalLitresIsNotRoundedTotal()
    ensures var es := [Element("a", Metre, 1.0, 1.0, 17.0), Element("a", Metre, 1.0, 1.0, 17.0)];
      TotalLitres(es) == 0 && TotalMj(es) == 34.0 &&
      RoundHalfEven(TotalMj(es) / GasolineMjPerLitre) == 1
  {
    var e := Element("a", Metre, 1.0, 1.0, 17.0);
    var es := [e, e];
    assert Load(e) == 17.0;
    assert Load(e) / GasolineMjPerLitre == 0.5;
    RoundHalfEvenUnique(0.5, 0);
    assert Litres(e) == 0;
    assert es[1..] == [e] && [e][1..] == [];
    assert TotalLitres([e]) == 0 && TotalMj([e]) == 17.0;
    assert TotalMj(es) == 34.0;
    assert TotalMj(es) / GasolineMjPerLitre == 1.0;
    RoundHalfEvenUnique(1.0, 1);
  }

  /** The results table: one load and one litre figure per element, and the two totals. */
  datatype Summary = Summary(loads: seq<real>, litres: seq<int>, totalMj: real, totalLitres: int)

  /** The results shown for the list; nothing is shown while the list is empty. */
  function Results(es: seq<Element>): (r: Option<Summary>)
    ensures r.None? <==> es == []
    ensures r.Some? ==> |r.value.loads| == |es| && |r.value.litres| == |es|
    ensures r.Some? ==> forall i :: 0 <= i < |es| ==>
      r.value.loads[i] == Load(es[i]) && r.value.litres[i] == Litres(es[i])
    ensures r.Some? ==> r.value.totalMj == TotalMj(es) && r.value.totalLitres == TotalLitres(es)
    ensures r.Some? && AllWellFormed(es) ==> 0.0 <= r.value.totalMj
    ensures r.Some? ==> r.value.totalMj / GasolineMjPerLitre - |es| as real / 2.0 <= r.value.totalLitres as real
    ensures r.Some? ==> r.value.totalLitres as real <= r.value.totalMj / GasolineMjPerLitre + |es| as real / 2.0
  {
    if es == [] then None
    else
      WellFormedTotalNonNegative(es);
      Some(Summary(seq(|es|, i requires 0 <= i < |es| => Load(es[i])),
                      seq(|es|, i requires 0 <= i < |es| => Litres(es[i])),
                      TotalMj(es), TotalLitres(es)))
  }
}
