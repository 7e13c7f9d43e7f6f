/** Three-way comparisons, as `core::cmp::Ordering` and `Ord::cmp` define them. */
module Order {
  import opened Wrappers

  datatype Ordering = Less | Equal | Greater {

    function Reverse(): Ordering {
      match this
      case Less => Greater
      case Equal => Equal
      case Greater => Less
    }
  }

  function CmpInt(a: int, b: int): Ordering {
    if a < b then Less else if a == b then Equal else Greater
  }

  /** Lexicographic comparison of two strings by Unicode scalar value. */
  function CmpString(a: string, b: string): Ordering {
    if a == [] then (if b == [] then Equal else Less)
    else if b == [] then Greater
    else if a[0] < b[0] then Less
    else if b[0] < a[0] then Greater
    else CmpString(a[1..], b[1..])
  }

  /** `None` sorts before every `Some`. */
  function CmpOptionInt(a: Option<int>, b: Option<int>): Ordering {
    match (a, b)
    case (None, None) => Equal
    case (None, Some(_)) => Less
    case (Some(_), None) => Greater
    case (Some(x), Some(y)) => CmpInt(x, y)
  }

  /** `None` sorts before every `Some`. */
  function CmpOptionString(a: Option<string>, b: Option<string>): Ordering {
    match (a, b)
    case (None, None) => Equal
    case (None, Some(_)) => Less
    case (Some(_), None) => Greater
    case (Some(x), Some(y)) => CmpString(x, y)
  }

  lemma {:induction false} CmpStringReverse(a: string, b: string)
    ensures CmpString(b, a) == CmpString(a, b).Reverse()
  {
    if a != [] && b != [] {
      CmpStringReverse(a[1..], b[1..]);
    }
  }

  lemma {:induction false} CmpStringEqual(a: string, b: string)
    ensures CmpString(a, b) == Equal <==> a == b
  {
    if a != [] && b != [] {
      CmpStringEqual(a[1..], b[1..]);
      assert a == [a[0]] + a[1..] && b == [b[0]] + b[1..];
    }
  }

  lemma {:induction false} CmpStringTransitive(a: string, b: string, c: string)
    requires CmpString(a, b) != Greater && CmpString(b, c) != Greater
    ensures CmpString(a, c) != Greater
    ensures CmpString(a, c) == Equal ==> CmpString(a, b) == Equal && CmpString(b, c) == Equal
  {
    if a != [] && b != [] && c != [] && a[0] == b[0] == c[0] {
      CmpStringTransitive(a[1..], b[1..], c[1..]);
    }
  }

  /** `cmp` is a total preorder: swapping the arguments reverses the answer, and "not after" is transitive. */
  ghost predicate TotalPreorder<T(!new)>(cmp: (T, T) -> Ordering) {
    && (forall a, b :: cmp(b, a) == cmp(a, b).Reverse())
    && (forall a, b, c :: cmp(a, b) != Greater && cmp(b, c) != Greater ==> cmp(a, c) != Greater)
  }
}
