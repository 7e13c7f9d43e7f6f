/** What a local search returns, in which order, said without its comparator. */
module LocalOrder {
  import opened Wrappers
  import opened Order
  import opened Envelopes
  import opened SearchQuery
  import opened Evaluator
  import opened Lists
  import opened LocalSearch

  // ----- the fields

  function When(e: Envelope): Option<int> {
    match e.header.date case None => None case Some(d) => Some(d.instant)
  }

  /** Undated messages come before all dated ones. */
  predicate Earlier(a: Option<int>, b: Option<int>) {
    match (a, b)
    case (_, None) => false
    case (None, Some(_)) => true
    case (Some(x), Some(y)) => x < y
  }

  /** The display name of the first address, or else its email, in lower case. */
  function NameKey(loc: Locale, addresses: seq<Address>): Option<string> {
    if |addresses| == 0 then None
    else if addresses[0].name.Some? then Some(loc.lower(addresses[0].name.value))
    else Some(loc.lower(addresses[0].email))
  }

  /** Dictionary order: a proper prefix first, otherwise the first difference decides. */
  ghost predicate TextBefore(a: string, b: string) {
    exists n: nat :: n <= |a| && n < |b| && a[..n] == b[..n] && (n == |a| || a[n] < b[n])
  }

  ghost predicate NameBefore(a: Option<string>, b: Option<string>) {
    match (a, b)
    case (_, None) => false
    case (None, Some(_)) => true
    case (Some(x), Some(y)) => TextBefore(x, y)
  }

  /** Strictly before by the field of one sorter kind. */
  ghost predicate FieldBefore(loc: Locale, kind: SorterKind, a: Envelope, b: Envelope) {
    match kind
    case ByDate => Earlier(When(a), When(b))
    case ByFrom => NameBefore(NameKey(loc, a.header.from), NameKey(loc, b.header.from))
    case ByTo => NameBefore(NameKey(loc, a.header.to), NameKey(loc, b.header.to))
    case BySubject => TextBefore(a.header.subject, b.header.subject)
  }

  predicate FieldLevel(loc: Locale, kind: SorterKind, a: Envelope, b: Envelope) {
    match kind
    case ByDate => When(a) == When(b)
    case ByFrom => NameKey(loc, a.header.from) == NameKey(loc, b.header.from)
    case ByTo => NameKey(loc, a.header.to) == NameKey(loc, b.header.to)
    case BySubject => a.header.subject == b.header.subject
  }

  ghost predicate Before(loc: Locale, sorter: Sorter, a: Envelope, b: Envelope) {
    match sorter.order
    case Ascending => FieldBefore(loc, sorter.kind, a, b)
    case Descending => FieldBefore(loc, sorter.kind, b, a)
  }

  ghost predicate LevelUpTo(loc: Locale, sorters: seq<Sorter>, n: nat, a: Envelope, b: Envelope)
    requires n <= |sorters|
  {
    forall k | 0 <= k < n :: FieldLevel(loc, sorters[k].kind, a, b)
  }

  /** Some sorter puts `a` before `b`, and all sorters ahead of it find them level. */
  ghost predicate Sooner(loc: Locale, sorters: seq<Sorter>, a: Envelope, b: Envelope) {
    exists n: nat :: n < |sorters| && LevelUpTo(loc, sorters, n, a, b) && Before(loc, sorters[n], a, b)
  }

  // ----- the comparator says the same

  lemma {:induction false} CmpStringIs(a: string, b: string)
    ensures CmpString(a, b) == Less <==> TextBefore(a, b)
  {
    if a == [] {
      assert b != [] ==> a[..0] == b[..0];
    } else if b != [] {
      CmpStringIs(a[1..], b[1..]);
      if a[0] == b[0] {
        TextBeforeTail(a, b);
      } else if a[0] < b[0] {
        assert a[..0] == b[..0];
      } else {
        OtherStart(a, b);
      }
    }
  }

  lemma {:induction false} OtherStart(a: string, b: string)
    requires a != [] && b != [] && a[0] != b[0]
    ensures forall n: nat | 0 < n <= |a| && n <= |b| :: a[..n] != b[..n]
  {
    forall n: nat | 0 < n <= |a| && n <= |b| ensures a[..n] != b[..n] {
      assert a[..n][0] != b[..n][0];
    }
  }

  lemma {:induction false} TextBeforeTail(a: string, b: string)
    requires a != [] && b != [] && a[0] == b[0]
    ensures TextBefore(a, b) <==> TextBefore(a[1..], b[1..])
  {
    var s, t := a[1..], b[1..];
    if n: nat :| n <= |s| && n < |t| && s[..n] == t[..n] && (n == |s| || s[n] < t[n]) {
      assert a[..n + 1] == [a[0]] + s[..n] && b[..n + 1] == [b[0]] + t[..n];
      assert n + 1 <= |a| && n + 1 < |b| && (n + 1 == |a| || a[n + 1] < b[n + 1]);
    }
    if n: nat :| n <= |a| && n < |b| && a[..n] == b[..n] && (n == |a| || a[n] < b[n]) {
      assert n > 0;
      assert s[..n - 1] == a[..n][1..] && t[..n - 1] == b[..n][1..];
      assert n - 1 <= |s| && n - 1 < |t| && (n - 1 == |s| || s[n - 1] < t[n - 1]);
    }
  }

  lemma {:induction false} KindIs(loc: Locale, kind: SorterKind, a: Envelope, b: Envelope)
    ensures CompareKind(loc, kind, a, b) == Less <==> FieldBefore(loc, kind, a, b)
    ensures CompareKind(loc, kind, a, b) == Equal <==> FieldLevel(loc, kind, a, b)
    ensures CompareKind(loc, kind, a, b) == Greater <==> FieldBefore(loc, kind, b, a)
  {
    match kind {
      case ByDate =>
      case ByFrom => NamesIs(NameKey(loc, a.header.from), NameKey(loc, b.header.from));
      case ByTo => NamesIs(NameKey(loc, a.header.to), NameKey(loc, b.header.to));
      case BySubject => TextsIs(a.header.subject, b.header.subject);
    }
  }

  lemma {:induction false} TextsIs(a: string, b: string)
    ensures CmpString(a, b) == Less <==> TextBefore(a, b)
    ensures CmpString(a, b) == Equal <==> a == b
    ensures CmpString(a, b) == Greater <==> TextBefore(b, a)
  {
    CmpStringIs(a, b);
    CmpStringIs(b, a);
    CmpStringEqual(a, b);
    CmpStringReverse(a, b);
  }

  lemma {:induction false} NamesIs(a: Option<string>, b: Option<string>)
    ensures CmpOptionString(a, b) == Less <==> NameBefore(a, b)
    ensures CmpOptionString(a, b) == Equal <==> a == b
    ensures CmpOptionString(a, b) == Greater <==> NameBefore(b, a)
  {
    if a.Some? && b.Some? {
      TextsIs(a.value, b.value);
    }
  }

  lemma {:induction false} SortersAre(loc: Locale, sorters: seq<Sorter>, a: Envelope, b: Envelope)
    ensures Compare(loc, sorters, a, b) == Less <==> Sooner(loc, sorters, a, b)
    ensures Compare(loc, sorters, a, b) == Equal <==> LevelUpTo(loc, sorters, |sorters|, a, b)
  {
    if sorters != [] {
      var rest := sorters[1..];
      KindIs(loc, sorters[0].kind, a, b);
      SortersAre(loc, rest, a, b);
      if FieldLevel(loc, sorters[0].kind, a, b) {
        SoonerTail(loc, sorters, a, b);
      } else if Before(loc, sorters[0], a, b) {
        assert LevelUpTo(loc, sorters, 0, a, b);
      } else {
        forall n: nat | n < |sorters| && LevelUpTo(loc, sorters, n, a, b) ensures n == 0 {}
      }
    }
  }

  lemma {:induction false} SoonerTail(loc: Locale, sorters: seq<Sorter>, a: Envelope, b: Envelope)
    requires sorters != [] && FieldLevel(loc, sorters[0].kind, a, b)
    ensures Sooner(loc, sorters, a, b) <==> Sooner(loc, sorters[1..], a, b)
    ensures LevelUpTo(loc, sorters, |sorters|, a, b) <==> LevelUpTo(loc, sorters[1..], |sorters| - 1, a, b)
  {
    var rest := sorters[1..];
    KindIs(loc, sorters[0].kind, a, b);
    forall n: nat | n < |sorters| ensures LevelUpTo(loc, sorters, n + 1, a, b) <==> LevelUpTo(loc, rest, n, a, b) {
      if LevelUpTo(loc, sorters, n + 1, a, b) {
        forall k | 0 <= k < n ensures FieldLevel(loc, rest[k].kind, a, b) {
          assert rest[k] == sorters[k + 1];
        }
      }
      if LevelUpTo(loc, rest, n, a, b) {
        forall k | 0 <= k < n + 1 ensures FieldLevel(loc, sorters[k].kind, a, b) {
          assert k > 0 ==> sorters[k] == rest[k - 1];
        }
      }
    }
    if n: nat :| n < |rest| && LevelUpTo(loc, rest, n, a, b) && Before(loc, rest[n], a, b) {
      assert LevelUpTo(loc, sorters, n + 1, a, b) && Before(loc, sorters[n + 1], a, b);
    }
    if n: nat :| n < |sorters| && LevelUpTo(loc, sorters, n, a, b) && Before(loc, sorters[n], a, b) {
      assert n > 0;
      assert LevelUpTo(loc, rest, n - 1, a, b) && Before(loc, rest[n - 1], a, b);
    }
  }

  // ----- the result

  /**
   The order of a result: of two hits, the later one is never sooner by the sorters, where `desc` turns
   its sorter around and each sorter decides among messages that all before it find level; without sorters,
   a newer message never comes after an older one, and undated ones come last.
   */
  lemma {:induction false} HitsInOrder(
    loc: Locale, mails: seq<Mail>, filter: Option<Filter>, sorters: Option<seq<Sorter>>, i: nat, j: nat)
    requires i < j < |AllHits(loc, mails, filter, sorters)|
    ensures var hits := AllHits(loc, mails, filter, sorters);
      if sorters.Some? && sorters.value != [] then
        || Sooner(loc, sorters.value, hits[i], hits[j])
        || LevelUpTo(loc, sorters.value, |sorters.value|, hits[i], hits[j])
      else !Earlier(When(hits[i]), When(hits[j]))
  {
    var hits := AllHits(loc, mails, filter, sorters);
    var cmp := SearchOrder(loc, sorters);
    SearchOrderIsTotalPreorder(loc, sorters);
    StableSortIsStable(EnvelopesOf(Keep(mails, Wants(loc, filter))), cmp);
    assert cmp(hits[i], hits[j]) != Greater;
    if sorters.Some? && sorters.value != [] {
      SortersAre(loc, sorters.value, hits[i], hits[j]);
    }
  }

  /** The first sorter rules: `date desc` puts later messages first and undated ones last, `date` the reverse. */
  lemma {:induction false} FirstSorterRules(
    loc: Locale, mails: seq<Mail>, filter: Option<Filter>, sorters: seq<Sorter>, i: nat, j: nat)
    requires sorters != [] && i < j < |AllHits(loc, mails, filter, Some(sorters))|
    ensures var hits, s := AllHits(loc, mails, filter, Some(sorters)), sorters[0];
      && (s == Sorter(ByDate, Descending) ==> !Earlier(When(hits[i]), When(hits[j])))
      && (s == Sorter(ByDate, Ascending) ==> !Earlier(When(hits[j]), When(hits[i])))
      && (s.order == Ascending ==> !FieldBefore(loc, s.kind, hits[j], hits[i]))
      && (s.order == Descending ==> !FieldBefore(loc, s.kind, hits[i], hits[j]))
  {
    var hits := AllHits(loc, mails, filter, Some(sorters));
    HitsInOrder(loc, mails, filter, Some(sorters), i, j);
    KindIs(loc, sorters[0].kind, hits[i], hits[j]);
    if n: nat :|
      n < |sorters| && LevelUpTo(loc, sorters, n, hits[i], hits[j]) && Before(loc, sorters[n], hits[i], hits[j])
    {
      assert n > 0 ==> FieldLevel(loc, sorters[0].kind, hits[i], hits[j]);
    }
  }

  /** Among hits level on the first sorter, the second decides. */
  lemma {:induction false} SecondSorterDecides(
    loc: Locale, mails: seq<Mail>, filter: Option<Filter>, sorters: seq<Sorter>, i: nat, j: nat)
    requires |sorters| >= 2 && i < j < |AllHits(loc, mails, filter, Some(sorters))|
    requires var hits := AllHits(loc, mails, filter, Some(sorters));
      FieldLevel(loc, sorters[0].kind, hits[i], hits[j])
    ensures var hits := AllHits(loc, mails, filter, Some(sorters)); !Before(loc, sorters[1], hits[j], hits[i])
  {
    var hits := AllHits(loc, mails, filter, Some(sorters));
    HitsInOrder(loc, mails, filter, Some(sorters), i, j);
    KindIs(loc, sorters[0].kind, hits[i], hits[j]);
    KindIs(loc, sorters[1].kind, hits[i], hits[j]);
    if n: nat :|
      n < |sorters| && LevelUpTo(loc, sorters, n, hits[i], hits[j]) && Before(loc, sorters[n], hits[i], hits[j])
    {
      assert n > 1 ==> FieldLevel(loc, sorters[1].kind, hits[i], hits[j]);
    }
  }

  /** A hit is the envelope of a message that matches, and each such message is a hit; none is lost or doubled. */
  lemma {:induction false} HitsAreMatches(
    loc: Locale, mails: seq<Mail>, filter: Option<Filter>, sorters: Option<seq<Sorter>>, e: Envelope)
    ensures e in AllHits(loc, mails, filter, sorters) <==>
      exists mail :: mail in mails && mail.envelope == e && (filter.Some? ==> Matches(loc, mail, filter.value))
    ensures (forall mail | mail in mails :: filter.Some? ==> Matches(loc, mail, filter.value)) ==>
      |AllHits(loc, mails, filter, sorters)| == |mails|
  {
    var kept := Keep(mails, Wants(loc, filter));
    var envelopes := EnvelopesOf(kept);
    var hits := AllHits(loc, mails, filter, sorters);
    assert e in hits <==> e in multiset(hits);
    assert e in envelopes <==> e in multiset(envelopes);
    if e in envelopes {
      var i :| 0 <= i < |envelopes| && envelopes[i] == e;
      KeepMember(mails, Wants(loc, filter), kept[i]);
      assert kept[i] in kept;
    }
    if mail :| mail in mails && mail.envelope == e && (filter.Some? ==> Matches(loc, mail, filter.value)) {
      KeepMember(mails, Wants(loc, filter), mail);
      var i :| 0 <= i < |kept| && kept[i] == mail;
      assert envelopes[i] == e;
    }
    if forall mail | mail in mails :: filter.Some? ==> Matches(loc, mail, filter.value) {
      KeepAll(mails, Wants(loc, filter));
      assert |hits| == |multiset(hits)| == |multiset(envelopes)| == |envelopes|;
    }
  }

  lemma {:induction false} KeepAll<T>(xs: seq<T>, p: T -> bool)
    requires forall x | x in xs :: p(x)
    ensures Keep(xs, p) == xs
    decreases |xs|
  {
    if xs != [] {
      KeepAll(xs[1..], p);
      assert xs == [xs[0]] + xs[1..];
    }
  }

  // ----- reading

  /** No two messages share a file, but for a flags file that is not there. */
  predicate OwnFiles(entries: seq<Entry>, contents: map<string, string>) {
    && (forall e | e in entries :: e.path != e.flagsPath)
    && (forall i, j | 0 <= i < j < |entries| ::
          && entries[i].path != entries[j].path
          && entries[i].path != entries[j].flagsPath && entries[i].flagsPath != entries[j].path
          && (entries[i].flagsPath == entries[j].flagsPath ==> entries[i].flagsPath !in contents))
  }

  /** One message from its own files. */
  function ReadOne(e: Entry, contents: map<string, string>, read: Reader): Option<Mail>
    requires e.path in contents
  {
    read(e.path, contents[e.path], if e.flagsPath in contents then contents[e.flagsPath] else "")
  }

  /** The messages whose file could be read, in order. */
  function Present(entries: seq<Entry>, contents: map<string, string>): seq<Entry> {
    Keep(entries, (e: Entry) => e.path in contents)
  }

  /** Each message parsed, or the first that is not. */
  ghost predicate ReadRight(
    r: Result<seq<Mail>, string>, present: seq<Entry>, contents: map<string, string>, read: Reader)
    requires forall e | e in present :: e.path in contents
  {
    match r
    case Ok(mails) =>
      && |mails| == |present|
      && forall i | 0 <= i < |present| :: ReadOne(present[i], contents, read) == Some(mails[i])
    case Err(path) =>
      exists i | 0 <= i < |present| ::
        && ReadOne(present[i], contents, read).None? && path == present[i].path
        && forall j | 0 <= j < i :: ReadOne(present[j], contents, read).Some?
  }

  lemma {:induction false} PresentAreThere(entries: seq<Entry>, contents: map<string, string>)
    ensures forall e | e in Present(entries, contents) :: e in entries && e.path in contents
  {
    forall e | e in Present(entries, contents) ensures e in entries && e.path in contents {
      KeepMember(entries, (x: Entry) => x.path in contents, e);
    }
  }

  /**
   When messages have their own files: every message whose file was read is parsed from it and from its
   own flags file, in order, and messages without a file are passed over; the first that does not parse is
   the error.
   */
  lemma {:induction false} ReadAllIs(entries: seq<Entry>, contents: map<string, string>, read: Reader)
    requires OwnFiles(entries, contents)
    ensures forall e | e in Present(entries, contents) :: e.path in contents
    ensures ReadRight(ReadAll(entries, contents, read), Present(entries, contents), contents, read)
    decreases |entries|
  {
    PresentAreThere(entries, contents);
    if entries != [] {
      var e, later := entries[0], entries[1..];
      if e.path !in contents {
        OwnFilesTail(entries, contents, contents);
        ReadAllIs(later, contents, read);
      } else {
        var rest := contents - {e.path} - {e.flagsPath};
        OwnFilesTail(entries, contents, rest);
        ReadAllIs(later, rest, read);
        LaterRight(entries, contents, read, ReadAll(later, rest, read));
        FirstRight(entries, contents, read);
      }
    }
  }

  /** What was read from the remaining files is right about all of them. */
  lemma {:induction false} LaterRight(
    entries: seq<Entry>, contents: map<string, string>, read: Reader, r: Result<seq<Mail>, string>)
    requires entries != [] && OwnFiles(entries, contents) && entries[0].path in contents
    requires var rest := contents - {entries[0].path} - {entries[0].flagsPath};
      && (forall e | e in Present(entries[1..], rest) :: e.path in rest)
      && ReadRight(r, Present(entries[1..], rest), rest, read)
    ensures forall e | e in Present(entries[1..], contents) :: e.path in contents
    ensures ReadRight(r, Present(entries[1..], contents), contents, read)
  {
    var rest := contents - {entries[0].path} - {entries[0].flagsPath};
    SamePresent(entries, contents);
    ReadRest(entries, contents, read);
    PresentAreThere(entries[1..], contents);
    var present := Present(entries[1..], contents);
    forall i | 0 <= i < |present| ensures ReadOne(present[i], rest, read) == ReadOne(present[i], contents, read) {
      assert present[i] in present;
    }
  }

  lemma {:induction false} FirstRight(entries: seq<Entry>, contents: map<string, string>, read: Reader)
    requires entries != [] && OwnFiles(entries, contents) && entries[0].path in contents
    requires forall e | e in Present(entries[1..], contents) :: e.path in contents
    requires forall e | e in Present(entries, contents) :: e.path in contents
    requires var rest := contents - {entries[0].path} - {entries[0].flagsPath};
      ReadRight(ReadAll(entries[1..], rest, read), Present(entries[1..], contents), contents, read)
    ensures ReadRight(ReadAll(entries, contents, read), Present(entries, contents), contents, read)
  {
    var e := entries[0];
    var later, r := Present(entries[1..], contents), ReadAll(entries, contents, read);
    var present := Present(entries, contents);
    assert present == [e] + later;
    OwnFlags(entries, contents);
    var rest := contents - {e.path} - {e.flagsPath};
    var first := ReadOne(e, contents, read);
    var r' := ReadAll(entries[1..], rest, read);
    assert first.None? ==> r == Err(e.path);
    assert first.Some? ==> r == match r' case Err(p) => Err(p) case Ok(ms) => Ok([first.value] + ms);
    assert present[0] == e;
    if first.None? {
      assert ReadOne(present[0], contents, read).None? && r.error == present[0].path;
    } else if r'.Err? {
      var i :| 0 <= i < |later| && ReadOne(later[i], contents, read).None? && r'.error == later[i].path
        && forall j | 0 <= j < i :: ReadOne(later[j], contents, read).Some?;
      assert present[i + 1] == later[i];
      forall j | 0 <= j < i + 1 ensures ReadOne(present[j], contents, read).Some? {
        assert j > 0 ==> present[j] == later[j - 1];
      }
    }
  }

  lemma {:induction false} OwnFlags(entries: seq<Entry>, contents: map<string, string>)
    requires entries != [] && OwnFiles(entries, contents)
    ensures var e := entries[0];
      && (e.flagsPath in contents - {e.path} <==> e.flagsPath in contents)
      && contents - {e.path} - {e.flagsPath} == (contents - {e.path}) - {e.flagsPath}
  {
    assert entries[0] in entries;
  }

  lemma {:induction false} OwnFilesTail(entries: seq<Entry>, contents: map<string, string>, rest: map<string, string>)
    requires entries != [] && OwnFiles(entries, contents) && rest.Keys <= contents.Keys
    ensures OwnFiles(entries[1..], rest)
  {
    var later := entries[1..];
    assert forall x | x in later :: x in entries;
    assert forall i | 0 <= i < |later| :: later[i] == entries[i + 1];
  }

  /** The files of one message are none of the others'. */
  lemma {:induction false} SamePresent(entries: seq<Entry>, contents: map<string, string>)
    requires entries != [] && OwnFiles(entries, contents)
    ensures var rest := contents - {entries[0].path} - {entries[0].flagsPath};
      && (forall x | x in entries[1..] && x.path in contents :: x.path in rest && rest[x.path] == contents[x.path])
      && (forall x | x in entries[1..] && x.flagsPath in contents ::
            x.flagsPath in rest && rest[x.flagsPath] == contents[x.flagsPath])
      && Present(entries[1..], rest) == Present(entries[1..], contents)
  {
    var later, rest := entries[1..], contents - {entries[0].path} - {entries[0].flagsPath};
    forall x | x in later
      ensures x.path in contents ==> x.path in rest && rest[x.path] == contents[x.path]
      ensures x.flagsPath in contents ==> x.flagsPath in rest && rest[x.flagsPath] == contents[x.flagsPath]
    {
      var i :| 0 <= i < |later| && later[i] == x;
      assert entries[i + 1] == x && entries[0].path != entries[i + 1].path;
    }
    KeepSame(later, (e: Entry) => e.path in rest, (e: Entry) => e.path in contents);
  }

  lemma {:induction false} ReadRest(entries: seq<Entry>, contents: map<string, string>, read: Reader)
    requires entries != [] && OwnFiles(entries, contents) && entries[0].path in contents
    ensures var rest := contents - {entries[0].path} - {entries[0].flagsPath};
      forall x | x in entries[1..] && x.path in contents ::
        x.path in rest && ReadOne(x, rest, read) == ReadOne(x, contents, read)
  {
    SamePresent(entries, contents);
  }
}
