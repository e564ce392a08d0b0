/** Body-fat categories: the classification done by categorizeBF in script.js.
    The source returns display strings; here each string is a constructor,
    ordered from leanest to most severe. */
module Categories {

  datatype Category = EssentialFat | Athletes | Fitness | Average | Obese

  /** Position of a category on the scale from leanest (0) to most severe (4). */
  function Severity(c: Category): (n: nat)
    ensures n < 5
  {
    match c
    case EssentialFat => 0
    case Athletes => 1
    case Fitness => 2
    case Average => 3
    case Obese => 4
  }

  /** categorizeBF: the male table for sex "male", the female table for any
      other sex. Each test is `pct < bound`, so a lower bound is inclusive and
      an upper bound exclusive. */
  function Classify(pct: real, sex: string): (c: Category)
    ensures c == EssentialFat <==> pct < Thresholds(sex)[0]
    ensures c == Obese <==> Thresholds(sex)[3] <= pct
  {
    if sex == "male" then
      if pct < 6.0 then EssentialFat
      else if pct < 14.0 then Athletes
      else if pct < 18.0 then Fitness
      else if pct < 25.0 then Average
      else Obese
    else
      if pct < 14.0 then EssentialFat
      else if pct < 21.0 then Athletes
      else if pct < 25.0 then Fitness
      else if pct < 32.0 then Average
      else Obese
  }

  /** The four boundaries of the table that applies to `sex`, in increasing order. */
  function Thresholds(sex: string): (ts: seq<real>)
    ensures |ts| == 4
    ensures forall i, j :: 0 <= i < j < |ts| ==> ts[i] < ts[j]
  {
    if sex == "male" then [6.0, 14.0, 18.0, 25.0] else [14.0, 21.0, 25.0, 32.0]
  }

  /** Reference definition of a lookup table: how many boundaries of `ts`
      the percentage has reached. */
  function Reached(ts: seq<real>, pct: real): (n: nat)
    ensures n <= |ts|
    ensures n == 0 <==> forall i :: 0 <= i < |ts| ==> pct < ts[i]
  {
    if ts == [] then 0
    else (if ts[0] <= pct then 1 else 0) + Reached(ts[1..], pct)
  }

  /** Reaching a boundary is monotone in the percentage. */
  lemma {:induction false} ReachedMonotone(ts: seq<real>, p: real, q: real)
    requires p <= q
    ensures Reached(ts, p) <= Reached(ts, q)
  {
    if ts != [] {
      ReachedMonotone(ts[1..], p, q);
    }
  }

  /** Raising every boundary can only lower the count reached. */
  lemma {:induction false} ReachedAntitone(lo: seq<real>, hi: seq<real>, pct: real)
    requires |lo| == |hi|
    requires forall i :: 0 <= i < |lo| ==> lo[i] <= hi[i]
    ensures Reached(hi, pct) <= Reached(lo, pct)
  {
    if lo != [] {
      ReachedAntitone(lo[1..], hi[1..], pct);
    }
  }

  /** For increasing boundaries, exactly the first n are reached. */
  lemma {:induction false} ReachedPrefix(ts: seq<real>, pct: real, n: nat)
    requires forall i, j :: 0 <= i < j < |ts| ==> ts[i] < ts[j]
    requires n <= |ts|
    ensures Reached(ts, pct) == n <==>
              (n == 0 || ts[n - 1] <= pct) && (n == |ts| || pct < ts[n])
  {
    if ts != [] {
      if ts[0] <= pct {
        if n > 0 {
          ReachedPrefix(ts[1..], pct, n - 1);
        } else {
          ReachedPrefix(ts[1..], pct, 0);
        }
      } else {
        assert forall i :: 0 <= i < |ts| ==> pct < ts[i] by {
          forall i | 0 <= i < |ts| ensures pct < ts[i] {
            if i > 0 { assert ts[0] < ts[i]; }
          }
        }
      }
    }
  }

  /** The if-chain of categorizeBF agrees with the reference lookup: the
      severity of the category is the number of boundaries of the sex's table
      that the percentage has reached. */
  lemma {:induction false} ClassifyMatchesTable(pct: real, sex: string)
    ensures Severity(Classify(pct, sex)) == Reached(Thresholds(sex), pct)
  {
    var ts := Thresholds(sex);
    var t1, t2, t3 := ts[1..], ts[2..], ts[3..];
    assert t1[1..] == t2 && t2[1..] == t3 && t3[1..] == [];
    assert Reached(t3, pct) == if ts[3] <= pct then 1 else 0;
    assert Reached(t2, pct) == (if ts[2] <= pct then 1 else 0) + Reached(t3, pct);
    assert Reached(t1, pct) == (if ts[1] <= pct then 1 else 0) + Reached(t2, pct);
  }

  /** Each category is exactly one half-open interval of the sex's table:
      the lower boundary is inclusive, the upper one exclusive, the leanest
      category has no lower boundary and the most severe none above. */
  lemma ClassifyInterval(pct: real, sex: string, c: Category)
    ensures Classify(pct, sex) == c <==>
              var ts, n := Thresholds(sex), Severity(c);
              (n == 0 || ts[n - 1] <= pct) && (n == 4 || pct < ts[n])
  {
    ClassifyMatchesTable(pct, sex);
    ReachedPrefix(Thresholds(sex), pct, Severity(c));
  }

  /** For a fixed sex, a higher percentage never yields a leaner category. */
  lemma ClassifyMonotone(p: real, q: real, sex: string)
    requires p <= q
    ensures Severity(Classify(p, sex)) <= Severity(Classify(q, sex))
  {
    ClassifyMatchesTable(p, sex);
    ClassifyMatchesTable(q, sex);
    ReachedMonotone(Thresholds(sex), p, q);
  }

  /** The female table's boundaries are each at or above the male one's, so at
      the same percentage the female category is never more severe. */
  lemma ClassifyFemaleNoHarsher(pct: real, sex: string)
    ensures Severity(Classify(pct, sex)) <= Severity(Classify(pct, "male"))
  {
    ClassifyMatchesTable(pct, sex);
    ClassifyMatchesTable(pct, "male");
    ReachedAntitone(Thresholds("male"), Thresholds(sex), pct);
  }
}
