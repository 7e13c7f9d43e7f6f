/** Local search over Maildir and m2dir: filter, stable sort, paginate (src/envelope/{maildir,m2dir}/search.rs). */
module LocalSearch {
  import opened Wrappers
  import opened Order
  import opened Envelopes
  import opened SearchQuery
  import opened Evaluator
  import opened Pagination
  import opened Lists

  // ----- the comparator

  /** Lower-cased name of the first address, or its lower-cased email. */
  function FirstAddressKey(loc: Locale, addresses: seq<Address>): Option<string> {
    if addresses == [] then None
    else
      match addresses[0].name
      case Some(name) => Some(loc.lower(name))
      case None => Some(loc.lower(addresses[0].email))
  }

  function Instant(e: Envelope): Option<int> {
    match e.header.date case Some(d) => Some(d.instant) case None => None
  }

  function CompareKind(loc: Locale, kind: SorterKind, a: Envelope, b: Envelope): Ordering {
    match kind
    case ByDate => CmpOptionInt(Instant(a), Instant(b))
    case ByFrom => CmpOptionString(FirstAddressKey(loc, a.header.from), FirstAddressKey(loc, b.header.from))
    case ByTo => CmpOptionString(FirstAddressKey(loc, a.header.to), FirstAddressKey(loc, b.header.to))
    case BySubject => CmpString(a.header.subject, b.header.subject)
  }

  function CompareOne(loc: Locale, sorter: Sorter, a: Envelope, b: Envelope): Ordering {
    var c := CompareKind(loc, sorter.kind, a, b);
    if sorter.order == Descending then c.Reverse() else c
  }

  /** The first sorter that tells the two apart decides. */
  function Compare(loc: Locale, sorters: seq<Sorter>, a: Envelope, b: Envelope): Ordering {
    if sorters == [] then Equal
    else
      var c := CompareOne(loc, sorters[0], a, b);
      if c != Equal then c else Compare(loc, sorters[1..], a, b)
  }

  method CompareWith(loc: Locale, left: Envelope, right: Envelope, sorters: seq<Sorter>) returns (r: Ordering)
    ensures r == Compare(loc, sorters, left, right)
  {
    for i := 0 to |sorters|
      invariant Compare(loc, sorters, left, right) == Compare(loc, sorters[i..], left, right)
    {
      var c := CompareOne(loc, sorters[i], left, right);
      if c != Equal {
        return c;
      }
    }
    return Equal;
  }

  /** The order of a search: the sorters, or newest first when there are none. */
  function SearchOrder(loc: Locale, sorters: Option<seq<Sorter>>): (Envelope, Envelope) -> Ordering {
    if sorters.Some? && sorters.value != [] then (a, b) => Compare(loc, sorters.value, a, b)
    else (a, b) => CmpOptionInt(Instant(b), Instant(a))
  }

  /** If `ab` and `bc` do not go down then neither does `ac`, and `ac` is level only when both are. */
  predicate Chains(ab: Ordering, bc: Ordering, ac: Ordering) {
    ab != Greater && bc != Greater ==> ac != Greater && (ac == Equal ==> ab == Equal && bc == Equal)
  }

  lemma {:induction false} KindReverses(loc: Locale, kind: SorterKind, a: Envelope, b: Envelope)
    ensures CompareKind(loc, kind, b, a) == CompareKind(loc, kind, a, b).Reverse()
  {
    CmpStringReverse(a.header.subject, b.header.subject);
    OptionReverses(FirstAddressKey(loc, a.header.from), FirstAddressKey(loc, b.header.from));
    OptionReverses(FirstAddressKey(loc, a.header.to), FirstAddressKey(loc, b.header.to));
  }

  lemma {:induction false} OptionReverses(a: Option<string>, b: Option<string>)
    ensures CmpOptionString(b, a) == CmpOptionString(a, b).Reverse()
  {
    if a.Some? && b.Some? {
      CmpStringReverse(a.value, b.value);
    }
  }

  lemma {:induction false} StringChains(a: string, b: string, c: string)
    ensures Chains(CmpString(a, b), CmpString(b, c), CmpString(a, c))
  {
    if CmpString(a, b) != Greater && CmpString(b, c) != Greater {
      CmpStringTransitive(a, b, c);
    }
  }

  lemma {:induction false} OptionChains(a: Option<string>, b: Option<string>, c: Option<string>)
    ensures Chains(CmpOptionString(a, b), CmpOptionString(b, c), CmpOptionString(a, c))
  {
    if a.Some? && b.Some? && c.Some? {
      StringChains(a.value, b.value, c.value);
    }
  }

  lemma {:induction false} AddressChains(loc: Locale, a: seq<Address>, b: seq<Address>, c: seq<Address>)
    ensures var (x, y, z) := (FirstAddressKey(loc, a), FirstAddressKey(loc, b), FirstAddressKey(loc, c));
      Chains(CmpOptionString(x, y), CmpOptionString(y, z), CmpOptionString(x, z))
  {
    OptionChains(FirstAddressKey(loc, a), FirstAddressKey(loc, b), FirstAddressKey(loc, c));
  }

  lemma {:induction false} KindChains(loc: Locale, kind: SorterKind, a: Envelope, b: Envelope, c: Envelope)
    ensures Chains(CompareKind(loc, kind, a, b), CompareKind(loc, kind, b, c), CompareKind(loc, kind, a, c))
  {
    match kind {
      case ByDate =>
      case ByFrom =>
        AddressChains(loc, a.header.from, b.header.from, c.header.from);
      case ByTo =>
        AddressChains(loc, a.header.to, b.header.to, c.header.to);
      case BySubject =>
        StringChains(a.header.subject, b.header.subject, c.header.subject);
    }
  }

  lemma {:induction false} OneChains(loc: Locale, sorter: Sorter, a: Envelope, b: Envelope, c: Envelope)
    ensures Chains(CompareOne(loc, sorter, a, b), CompareOne(loc, sorter, b, c), CompareOne(loc, sorter, a, c))
  {
    KindChains(loc, sorter.kind, a, b, c);
    KindChains(loc, sorter.kind, c, b, a);
    KindReverses(loc, sorter.kind, a, b);
    KindReverses(loc, sorter.kind, b, c);
    KindReverses(loc, sorter.kind, a, c);
  }

  lemma {:induction false} CompareReverses(loc: Locale, sorters: seq<Sorter>, a: Envelope, b: Envelope)
    ensures Compare(loc, sorters, b, a) == Compare(loc, sorters, a, b).Reverse()
  {
    if sorters != [] {
      KindReverses(loc, sorters[0].kind, a, b);
      CompareReverses(loc, sorters[1..], a, b);
    }
  }

  lemma {:induction false} CompareChains(loc: Locale, sorters: seq<Sorter>, a: Envelope, b: Envelope, c: Envelope)
    ensures Chains(Compare(loc, sorters, a, b), Compare(loc, sorters, b, c), Compare(loc, sorters, a, c))
  {
    if sorters != [] {
      OneChains(loc, sorters[0], a, b, c);
      CompareChains(loc, sorters[1..], a, b, c);
    }
  }

  /** For every list of sorters the comparator is a total preorder. */
  lemma {:induction false} SearchOrderIsTotalPreorder(loc: Locale, sorters: Option<seq<Sorter>>)
    ensures TotalPreorder(SearchOrder(loc, sorters))
  {
    var cmp := SearchOrder(loc, sorters);
    if sorters.Some? && sorters.value != [] {
      forall a, b ensures cmp(b, a) == cmp(a, b).Reverse() {
        CompareReverses(loc, sorters.value, a, b);
      }
      forall a, b, c | cmp(a, b) != Greater && cmp(b, c) != Greater ensures cmp(a, c) != Greater {
        CompareChains(loc, sorters.value, a, b, c);
      }
    }
  }

  // ----- the stable sort

  ghost predicate SortedBy<T(!new)>(xs: seq<T>, cmp: (T, T) -> Ordering) {
    forall i, j | 0 <= i < j < |xs| :: cmp(xs[i], xs[j]) != Greater
  }

  /** Comparing equal to `x`. */
  function LevelWith<T>(cmp: (T, T) -> Ordering, x: T): T -> bool {
    e => cmp(e, x) == Equal
  }

  /** `ys` is `xs` sorted, elements that compare equal kept in their order. */
  ghost predicate StablySorted<T(!new)>(xs: seq<T>, ys: seq<T>, cmp: (T, T) -> Ordering) {
    && SortedBy(ys, cmp)
    && forall x :: Keep(ys, LevelWith(cmp, x)) == Keep(xs, LevelWith(cmp, x))
  }

  /** Inserts after everything that does not compare greater. */
  function InsertSorted<T>(xs: seq<T>, x: T, cmp: (T, T) -> Ordering): (r: seq<T>)
    ensures multiset(r) == multiset(xs) + multiset{x}
  {
    if xs == [] then [x]
    else
      var before, last := xs[..|xs| - 1], xs[|xs| - 1];
      assert xs == before + [last];
      if cmp(last, x) != Greater then xs + [x] else InsertSorted(before, x, cmp) + [last]
  }

  /** `slice::sort_by`, which is stable. */
  function StableSort<T>(xs: seq<T>, cmp: (T, T) -> Ordering): (r: seq<T>)
    ensures multiset(r) == multiset(xs)
  {
    if xs == [] then []
    else
      assert xs == xs[..|xs| - 1] + [xs[|xs| - 1]];
      InsertSorted(StableSort(xs[..|xs| - 1], cmp), xs[|xs| - 1], cmp)
  }

  lemma {:induction false} InsertStaysSorted<T(!new)>(xs: seq<T>, x: T, cmp: (T, T) -> Ordering)
    requires TotalPreorder(cmp) && SortedBy(xs, cmp)
    ensures SortedBy(InsertSorted(xs, x, cmp), cmp)
  {
    if xs != [] {
      var before, last := xs[..|xs| - 1], xs[|xs| - 1];
      if cmp(last, x) != Greater {
        forall i | 0 <= i < |xs| ensures cmp(xs[i], x) != Greater {
          if i < |xs| - 1 {
            assert cmp(xs[i], last) != Greater;
          }
        }
      } else {
        InsertStaysSorted(before, x, cmp);
        var r := InsertSorted(before, x, cmp);
        forall i | 0 <= i < |r| ensures cmp(r[i], last) != Greater {
          assert r[i] in multiset(r);
          assert r[i] == x || r[i] in before;
          assert cmp(x, last) == Less;
        }
      }
    }
  }

  lemma {:induction false} InsertKeepsLevels<T(!new)>(xs: seq<T>, x: T, cmp: (T, T) -> Ordering, k: T)
    requires TotalPreorder(cmp)
    ensures Keep(InsertSorted(xs, x, cmp), LevelWith(cmp, k)) == Keep(xs + [x], LevelWith(cmp, k))
  {
    var p := LevelWith(cmp, k);
    if xs == [] {
      assert xs + [x] == [x];
    } else {
      var before, last := xs[..|xs| - 1], xs[|xs| - 1];
      assert xs == before + [last];
      if cmp(last, x) == Greater {
        InsertKeepsLevels(before, x, cmp, k);
        KeepLast(InsertSorted(before, x, cmp), last, p);
        KeepLast(before, x, p);
        KeepLast(before, last, p);
        KeepLast(xs, x, p);
        NotBothLevel(cmp, last, x, k);
      }
    }
  }

  lemma {:induction false} NotBothLevel<T(!new)>(cmp: (T, T) -> Ordering, a: T, b: T, k: T)
    requires TotalPreorder(cmp) && cmp(a, b) == Greater
    ensures !(LevelWith(cmp, k)(a) && LevelWith(cmp, k)(b))
  {
    assert cmp(k, b) == cmp(b, k).Reverse();
  }

  /** The sort is a stable sort. */
  lemma {:induction false} StableSortIsStable<T(!new)>(xs: seq<T>, cmp: (T, T) -> Ordering)
    requires TotalPreorder(cmp)
    ensures StablySorted(xs, StableSort(xs, cmp), cmp)
  {
    if xs != [] {
      var before, last := xs[..|xs| - 1], xs[|xs| - 1];
      assert xs == before + [last];
      var sorted := StableSort(before, cmp);
      StableSortIsStable(before, cmp);
      InsertStaysSorted(sorted, last, cmp);
      forall x ensures Keep(StableSort(xs, cmp), LevelWith(cmp, x)) == Keep(xs, LevelWith(cmp, x)) {
        InsertKeepsLevels(sorted, last, cmp, x);
        KeepLast(sorted, last, LevelWith(cmp, x));
        KeepLast(before, last, LevelWith(cmp, x));
      }
    }
  }

  /** There is only one stable sort of a list, so the result does not depend on the algorithm. */
  lemma {:induction false} StableSortIsUnique<T(!new)>(xs: seq<T>, ys: seq<T>, zs: seq<T>, cmp: (T, T) -> Ordering)
    requires TotalPreorder(cmp) && StablySorted(xs, ys, cmp) && StablySorted(xs, zs, cmp)
    ensures ys == zs
  {
    SameLevelsSameList(ys, zs, cmp);
  }

  lemma {:induction false} SameLevelsSameList<T(!new)>(ys: seq<T>, zs: seq<T>, cmp: (T, T) -> Ordering)
    requires TotalPreorder(cmp) && SortedBy(ys, cmp) && SortedBy(zs, cmp)
    requires forall x :: Keep(ys, LevelWith(cmp, x)) == Keep(zs, LevelWith(cmp, x))
    ensures ys == zs
    decreases |ys|
  {
    if ys == [] {
      if zs != [] {
        HeadIsLevel(zs, cmp);
      }
    } else {
      HeadIsLevel(ys, cmp);
      var y := ys[0];
      KeepMember(zs, LevelWith(cmp, y), y);
      assert zs != [];
      HeadIsLevel(zs, cmp);
      var z := zs[0];
      KeepMember(ys, LevelWith(cmp, z), z);
      FirstIsLeast(ys, z, cmp);
      FirstIsLeast(zs, y, cmp);
      assert cmp(z, y) == Equal;
      assert Keep(zs, LevelWith(cmp, y))[0] == z && Keep(ys, LevelWith(cmp, y))[0] == y;
      forall x ensures Keep(ys[1..], LevelWith(cmp, x)) == Keep(zs[1..], LevelWith(cmp, x)) {
        var p := LevelWith(cmp, x);
        assert Keep(ys, p) == Keep(zs, p);
        if p(y) {
          assert Keep(ys[1..], p) == Keep(ys, p)[1..];
          assert Keep(zs[1..], p) == Keep(zs, p)[1..];
        }
      }
      SameLevelsSameList(ys[1..], zs[1..], cmp);
      assert ys == [y] + ys[1..] && zs == [z] + zs[1..];
    }
  }

  lemma {:induction false} HeadIsLevel<T(!new)>(xs: seq<T>, cmp: (T, T) -> Ordering)
    requires TotalPreorder(cmp) && xs != []
    ensures xs[0] in Keep(xs, LevelWith(cmp, xs[0]))
  {
    assert cmp(xs[0], xs[0]) == cmp(xs[0], xs[0]).Reverse();
    KeepMember(xs, LevelWith(cmp, xs[0]), xs[0]);
  }

  lemma {:induction false} FirstIsLeast<T(!new)>(xs: seq<T>, x: T, cmp: (T, T) -> Ordering)
    requires TotalPreorder(cmp) && SortedBy(xs, cmp) && x in xs
    ensures cmp(xs[0], x) != Greater
  {
    assert cmp(x, x) == cmp(x, x).Reverse();
    var i :| 0 <= i < |xs| && xs[i] == x;
  }

  // ----- the pipeline

  /** A stored message: the file holding it, and the file holding its flags if the backend has one. */
  datatype Entry = Entry(path: string, flagsPath: string)

  /** Turns the two files into a message; `None` when the message does not parse, which Maildir never reports. */
  type Reader = (string, string, string) -> Option<Mail>

  /** The messages read so far, files that are used up removed; a path on failure. */
  function ReadAll(entries: seq<Entry>, contents: map<string, string>, read: Reader): Result<seq<Mail>, string>
    decreases |entries|
  {
    if entries == [] then Ok([])
    else
      var e := entries[0];
      if e.path !in contents then ReadAll(entries[1..], contents, read)
      else
        var rest := contents - {e.path};
        var flags := if e.flagsPath in rest then rest[e.flagsPath] else "";
        match read(e.path, contents[e.path], flags)
        case None => Err(e.path)
        case Some(mail) =>
          match ReadAll(entries[1..], rest - {e.flagsPath}, read)
          case Err(p) => Err(p)
          case Ok(mails) => Ok([mail] + mails)
  }

  predicate Wanted(loc: Locale, filter: Option<Filter>, mail: Mail) {
    filter.Some? ==> Matches(loc, mail, filter.value)
  }

  function Wants(loc: Locale, filter: Option<Filter>): Mail -> bool {
    mail => Wanted(loc, filter, mail)
  }

  function EnvelopesOf(mails: seq<Mail>): seq<Envelope> {
    seq(|mails|, i requires 0 <= i < |mails| => mails[i].envelope)
  }

  /** The whole result, before pagination. */
  function AllHits(loc: Locale, mails: seq<Mail>, filter: Option<Filter>, sorters: Option<seq<Sorter>>): seq<Envelope> {
    StableSort(EnvelopesOf(Keep(mails, Wants(loc, filter))), SearchOrder(loc, sorters))
  }

  ghost function Prepend(mails: seq<Mail>, r: Result<seq<Mail>, string>): Result<seq<Mail>, string> {
    match r case Err(p) => Err(p) case Ok(more) => Ok(mails + more)
  }

  lemma {:induction false} PrependOne(mails: seq<Mail>, mail: Mail, r: Result<seq<Mail>, string>)
    ensures Prepend(mails, Prepend([mail], r)) == Prepend(mails + [mail], r)
  {
    if r.Ok? {
      assert mails + ([mail] + r.value) == (mails + [mail]) + r.value;
    }
  }

  lemma {:induction false} PrependNothing(r: Result<seq<Mail>, string>)
    ensures Prepend([], r) == r
  {
    if r.Ok? {
      assert [] + r.value == r.value;
    }
  }

  method Search(
    entries: seq<Entry>, contents: map<string, string>, read: Reader, loc: Locale,
    filter: Option<Filter>, sorters: Option<seq<Sorter>>, page: Option<nat>, size: Option<nat>, usizeMax: nat)
    returns (result: Result<seq<Envelope>, string>)
    ensures result ==
      match ReadAll(entries, contents, read)
      case Err(p) => Err(p)
      case Ok(mails) => Ok(Paginate(AllHits(loc, mails, filter, sorters), page, size, usizeMax))
  {
    var left := contents;
    var hits: seq<Envelope> := [];
    ghost var whole, mails: seq<Mail> := ReadAll(entries, contents, read), [];
    assert entries[0..] == entries;
    PrependNothing(whole);
    for i := 0 to |entries|
      invariant whole == Prepend(mails, ReadAll(entries[i..], left, read))
      invariant hits == EnvelopesOf(Keep(mails, Wants(loc, filter)))
    {
      var e := entries[i];
      assert entries[i..][1..] == entries[i + 1..];
      if e.path in left {
        var body := left[e.path];
        left := left - {e.path};
        var flags := if e.flagsPath in left then left[e.flagsPath] else "";
        left := left - {e.flagsPath};
        var parsed := read(e.path, body, flags);
        if parsed.None? {
          return Err(e.path);
        }
        KeepLast(mails, parsed.value, Wants(loc, filter));
        PrependOne(mails, parsed.value, ReadAll(entries[i + 1..], left, read));
        mails := mails + [parsed.value];
        if Wanted(loc, filter, parsed.value) {
          hits := hits + [parsed.value.envelope];
        }
      }
    }
    assert mails + [] == mails;
    hits := StableSort(hits, SearchOrder(loc, sorters));
    return Ok(Paginate(hits, page, size, usizeMax));
  }

  /**
   Local search: the hits are exactly the messages the filter matches, each once, stably sorted by the
   requested order; every page is a slice of that one list, and enough pages give all of it.
   */
  lemma {:induction false} SearchPagesTile(
    loc: Locale, mails: seq<Mail>, filter: Option<Filter>, sorters: Option<seq<Sorter>>, size: nat, count: nat,
    usizeMax: nat)
    requires 0 < size && |mails| <= count && |mails| <= usizeMax
    ensures var hits := AllHits(loc, mails, filter, sorters);
      && StablySorted(EnvelopesOf(Keep(mails, Wants(loc, filter))), hits, SearchOrder(loc, sorters))
      && multiset(hits) == multiset(EnvelopesOf(Keep(mails, Wants(loc, filter))))
      && (forall page: nat :: Paginate(hits, Some(page), Some(size), usizeMax) == Slice(hits, Some(page), Some(size)))
      && Pages(hits, size, count) == hits
  {
    var matching := EnvelopesOf(Keep(mails, Wants(loc, filter)));
    var hits := AllHits(loc, mails, filter, sorters);
    SearchOrderIsTotalPreorder(loc, sorters);
    StableSortIsStable(matching, SearchOrder(loc, sorters));
    KeepShorter(mails, Wants(loc, filter));
    assert |multiset(hits)| == |hits| && |multiset(matching)| == |matching|;
    forall page: nat ensures Paginate(hits, Some(page), Some(size), usizeMax) == Slice(hits, Some(page), Some(size)) {
      PaginateIsSlice(hits, Some(page), Some(size), usizeMax);
    }
    PagesCover(hits, size, count);
  }
}
