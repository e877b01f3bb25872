/** Sums of a measure over finite sets of strings, and the size of a string in UTF-8. */
module Sums {
  import opened Text

  /** The sum of a measure over a finite set. */
  ghost function Sum(s: set<Str>, f: Str -> nat): nat
    decreases s
  {
    if s == {} then 0
    else
      var x :| x in s;
      f(x) + Sum(s - {x}, f)
  }

  lemma {:induction false} SumWithout(s: set<Str>, f: Str -> nat, x: Str)
    requires x in s
    ensures Sum(s, f) == f(x) + Sum(s - {x}, f)
    decreases s
  {
    var y :| y in s && Sum(s, f) == f(y) + Sum(s - {y}, f);
    if y != x {
      SumWithout(s - {y}, f, x);
      SumWithout(s - {x}, f, y);
      assert s - {y} - {x} == s - {x} - {y};
    }
  }

  lemma {:induction false} SubsetIsSmaller(a: set<Str>, b: set<Str>)
    requires a <= b
    ensures |a| <= |b|
    decreases b
  {
    if a != {} {
      var x :| x in a;
      SubsetIsSmaller(a - {x}, b - {x});
    }
  }

  lemma {:induction false} SumOfSubset(a: set<Str>, b: set<Str>, f: Str -> nat)
    requires a <= b
    ensures Sum(a, f) <= Sum(b, f)
    decreases b
  {
    if a != {} {
      var x :| x in a;
      SumWithout(a, f, x);
      SumWithout(b, f, x);
      SumOfSubset(a - {x}, b - {x}, f);
    }
  }

  function Utf8Size(text: Str): (n: nat)
    ensures text != [] ==> n > 0
  {
    if text == [] then 0
    else
      (if text[0] < 0x80 then 1 else if text[0] < 0x800 then 2 else if text[0] < 0x1_0000 then 3 else 4)
      + Utf8Size(text[1..])
  }
}
