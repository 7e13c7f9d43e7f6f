/** The local filter evaluator shared by Maildir and m2dir (src/envelope/maildir/search.rs). */
module Evaluator {
  import opened Wrappers
  import opened Flags
  import opened Envelopes
  import opened SearchQuery

  /** Unicode lower-casing, as `str::to_lowercase` does it. */
  datatype Locale = Locale(lower: string -> string)

  /** A message: its envelope and its text and HTML body parts (none when it does not parse). */
  datatype Mail = Mail(envelope: Envelope, parts: seq<string>)

  predicate ContainsAt(haystack: string, needle: string, i: nat) {
    i + |needle| <= |haystack| && haystack[i..i + |needle|] == needle
  }

  predicate Contains(haystack: string, needle: string) {
    exists i: nat :: i <= |haystack| && ContainsAt(haystack, needle, i)
  }

  predicate ContainsLower(loc: Locale, haystack: string, needle: string) {
    Contains(loc.lower(haystack), loc.lower(needle))
  }

  predicate ContainsIgnoreAsciiCase(haystack: string, needle: string) {
    Contains(LowerAscii(haystack), LowerAscii(needle))
  }

  predicate AddressesContain(loc: Locale, addresses: seq<Address>, pattern: string) {
    exists a | a in addresses ::
      ContainsLower(loc, a.email, pattern) || (a.name.Some? && ContainsLower(loc, a.name.value, pattern))
  }

  predicate BodyContains(parts: seq<string>, pattern: string) {
    exists p | p in parts :: ContainsIgnoreAsciiCase(p, pattern)
  }

  function DayOf(mail: Mail): Option<int> {
    match mail.envelope.header.date
    case Some(d) => Some(d.day)
    case None => None
  }

  /** The next day, or the same one when the calendar ends; both servers are asked for `after D` by it. */
  function Bump(maxDay: int, day: int): int {
    if day < maxDay then day + 1 else day
  }

  predicate Matches(loc: Locale, mail: Mail, q: Filter) {
    match q
    case And(l, r) => Matches(loc, mail, l) && Matches(loc, mail, r)
    case Or(l, r) => Matches(loc, mail, l) || Matches(loc, mail, r)
    case Not(x) => !Matches(loc, mail, x)
    case Date(d) => DayOf(mail) == Some(d)
    case AfterDate(d) => DayOf(mail).Some? && DayOf(mail).value > d
    case From(p) => AddressesContain(loc, mail.envelope.header.from, p)
    case To(p) => AddressesContain(loc, mail.envelope.header.to, p)
    case Subject(p) => ContainsLower(loc, mail.envelope.header.subject, p)
    case Body(p) => BodyContains(mail.parts, p)
    case HasFlag(f) => Key(f) in mail.envelope.flags
  }

  /** A server's own text search: which field, which pattern. */
  datatype Field = FromField | ToField | SubjectField | BodyField

  type TextSearch = (Field, string) -> bool

  /** The server's search of the field that a text leaf names agrees with the evaluator on the leaf. */
  predicate TextAgrees(loc: Locale, mail: Mail, holds: TextSearch, leaf: Filter) {
    match leaf
    case From(p) => holds(FromField, p) <==> Matches(loc, mail, leaf)
    case To(p) => holds(ToField, p) <==> Matches(loc, mail, leaf)
    case Subject(p) => holds(SubjectField, p) <==> Matches(loc, mail, leaf)
    case Body(p) => holds(BodyField, p) <==> Matches(loc, mail, leaf)
    case _ => true
  }

  // ----- spellings

  lemma {:induction false} LowerAt(s: string, i: nat)
    requires i < |s|
    ensures LowerAscii(s)[i] == LowerChar(s[i])
  {
  }

  /** Spellings that differ in case only have the same key. */
  lemma {:induction false} CaseDoesNotMatter(a: string, b: string)
    requires LowerAscii(a) == LowerAscii(b)
    ensures KeyOf(a) == KeyOf(b)
  {
    if a != "" {
      LowerAt(a, 0);
      LowerAt(b, 0);
      var x, y := StripMarker(a), StripMarker(b);
      assert |a| == |LowerAscii(a)| == |b|;
      assert |x| == |y|;
      forall i | 0 <= i < |x| ensures LowerChar(x[i]) == LowerChar(y[i]) {
        var k := i + |a| - |x|;
        LowerAt(a, k);
        LowerAt(b, k);
      }
      assert LowerAscii(x) == LowerAscii(y);
    }
  }

  // ----- what the leaves mean

  /** `needle` is a piece of `text`. */
  ghost predicate Within(needle: string, text: string) {
    exists before, after :: text == before + needle + after
  }

  lemma {:induction false} ContainsIff(text: string, needle: string)
    ensures Contains(text, needle) <==> Within(needle, text)
  {
    if i: nat :| i <= |text| && ContainsAt(text, needle, i) {
      assert text == text[..i] + needle + text[i + |needle|..];
    }
    if before, after :| text == before + needle + after {
      assert ContainsAt(text, needle, |before|);
    }
  }

  /** The pattern is in the address or in the display name, whatever the case. */
  ghost predicate InAddress(loc: Locale, a: Address, pattern: string) {
    || Within(loc.lower(pattern), loc.lower(a.email))
    || (a.name.Some? && Within(loc.lower(pattern), loc.lower(a.name.value)))
  }

  /**
   Each leaf by itself: dates are those of the day in the sender's own offset, strictly later ones for
   `after`; `from` and `to` look at the addresses of their own header, `subject` at the subject, all in lower
   case; `body` looks at the parts, ignoring ASCII case; a flag is one of the envelope's.
   */
  lemma {:induction false} LeafMeaning(loc: Locale, mail: Mail, leaf: Filter)
    requires IsLeaf(leaf)
    ensures var h := mail.envelope.header;
      Matches(loc, mail, leaf) <==>
        match leaf
        case Date(d) => h.date.Some? && h.date.value.day == d
        case AfterDate(d) => h.date.Some? && h.date.value.day > d
        case From(p) => exists a :: a in h.from && InAddress(loc, a, p)
        case To(p) => exists a :: a in h.to && InAddress(loc, a, p)
        case Subject(p) => Within(loc.lower(p), loc.lower(h.subject))
        case Body(p) => exists part :: part in mail.parts && Within(LowerAscii(p), LowerAscii(part))
        case HasFlag(f) => Key(f) in mail.envelope.flags
  {
    var h := mail.envelope.header;
    match leaf {
      case From(p) => AddressesIff(loc, h.from, p);
      case To(p) => AddressesIff(loc, h.to, p);
      case Subject(p) => ContainsIff(loc.lower(h.subject), loc.lower(p));
      case Body(p) =>
        forall part | part in mail.parts
          ensures ContainsIgnoreAsciiCase(part, p) <==> Within(LowerAscii(p), LowerAscii(part))
        {
          ContainsIff(LowerAscii(part), LowerAscii(p));
        }
      case _ =>
    }
  }

  lemma {:induction false} AddressesIff(loc: Locale, addresses: seq<Address>, pattern: string)
    ensures AddressesContain(loc, addresses, pattern) <==> exists a :: a in addresses && InAddress(loc, a, pattern)
  {
    forall a | a in addresses
      ensures (ContainsLower(loc, a.email, pattern)
               || (a.name.Some? && ContainsLower(loc, a.name.value, pattern))) <==> InAddress(loc, a, pattern)
    {
      ContainsIff(loc.lower(a.email), loc.lower(pattern));
      if a.name.Some? {
        ContainsIff(loc.lower(a.name.value), loc.lower(pattern));
      }
    }
  }

  /** The connectives. */
  lemma {:induction false} TreeMeaning(loc: Locale, mail: Mail, l: Filter, r: Filter)
    ensures Matches(loc, mail, And(l, r)) <==> Matches(loc, mail, l) && Matches(loc, mail, r)
    ensures Matches(loc, mail, Or(l, r)) <==> Matches(loc, mail, l) || Matches(loc, mail, r)
    ensures Matches(loc, mail, Not(l)) <==> !Matches(loc, mail, l)
  {
  }
}
