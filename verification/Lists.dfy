/** Filtering of sequences. */
module Lists {

  /** `Iterator::filter`: the elements a predicate keeps, in order. */
  function Keep<T>(xs: seq<T>, p: T -> bool): seq<T> {
    if xs == [] then []
    else if p(xs[0]) then [xs[0]] + Keep(xs[1..], p)
    else Keep(xs[1..], p)
  }

  lemma {:induction false} KeepLast<T>(xs: seq<T>, x: T, p: T -> bool)
    ensures Keep(xs + [x], p) == Keep(xs, p) + if p(x) then [x] else []
  {
    if xs == [] {
      assert xs + [x] == [x];
      assert [x][1..] == [];
    } else {
      assert (xs + [x])[1..] == xs[1..] + [x];
      KeepLast(xs[1..], x, p);
    }
  }

  lemma {:induction false} KeepMember<T>(xs: seq<T>, p: T -> bool, x: T)
    ensures x in Keep(xs, p) <==> x in xs && p(x)
  {
    if xs != [] {
      assert xs == [xs[0]] + xs[1..];
      KeepMember(xs[1..], p, x);
    }
  }

  lemma {:induction false} KeepTwice<T>(xs: seq<T>, p: T -> bool, q: T -> bool, both: T -> bool)
    requires forall x | x in xs :: both(x) <==> p(x) && q(x)
    ensures Keep(Keep(xs, p), q) == Keep(xs, both)
  {
    if xs != [] {
      KeepTwice(xs[1..], p, q, both);
      if p(xs[0]) {
        assert ([xs[0]] + Keep(xs[1..], p))[1..] == Keep(xs[1..], p);
      }
    }
  }

  lemma {:induction false} KeepSame<T>(xs: seq<T>, p: T -> bool, q: T -> bool)
    requires forall x | x in xs :: p(x) <==> q(x)
    ensures Keep(xs, p) == Keep(xs, q)
  {
    if xs != [] {
      KeepSame(xs[1..], p, q);
    }
  }

  lemma {:induction false} KeepShorter<T>(xs: seq<T>, p: T -> bool)
    ensures |Keep(xs, p)| <= |xs|
  {
    if xs != [] {
      KeepShorter(xs[1..], p);
    }
  }

  ghost function Listed<T(!new)>(s: set<T>): (xs: seq<T>)
    ensures forall x :: x in xs <==> x in s
    decreases s
  {
    if s == {} then [] else var x :| x in s; [x] + Listed(s - {x})
  }

  /** A name longer than all the given ones, hence none of them. */
  function LongerThan(names: seq<string>): (name: string)
    ensures forall n | n in names :: |n| < |name|
    ensures name !in names
  {
    if names == [] then "x"
    else
      var before, last := LongerThan(names[..|names| - 1]), names[|names| - 1];
      assert names == names[..|names| - 1] + [last];
      before + last + "x"
  }
}
