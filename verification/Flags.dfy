/** The flag shared by every backend: wire spelling plus optional IANA classification (src/flag/types.rs). */
module Flags {
  import opened Wrappers
  import opened Order

  datatype IanaFlag =
    | Seen | Answered | Flagged | Draft | Deleted | Forwarded
    | Junk | NotJunk | Phishing | Important | MdnSent

  datatype Flag = Flag(raw: string, iana: Option<IanaFlag>)

  datatype FlagOp = AddFlags | SetFlags | RemoveFlags

  function LowerChar(c: char): char {
    if 'A' <= c <= 'Z' then (c as int + 32) as char else c
  }

  /** `str::to_ascii_lowercase`. */
  function LowerAscii(s: string): (r: string)
    ensures |r| == |s|
  {
    seq(|s|, i requires 0 <= i < |s| => LowerChar(s[i]))
  }

  function StripMarker(raw: string): string {
    if raw != [] && (raw[0] == '\\' || raw[0] == '$') then raw[1..] else raw
  }

  function ClassifyIana(raw: string): Option<IanaFlag> {
    ClassifyName(LowerAscii(StripMarker(raw)))
  }

  function ClassifyName(name: string): Option<IanaFlag> {
    if name == "seen" then Some(Seen)
    else if name == "answered" then Some(Answered)
    else if name == "flagged" then Some(Flagged)
    else if name == "draft" then Some(Draft)
    else if name == "deleted" then Some(Deleted)
    else if name == "forwarded" then Some(Forwarded)
    else if name == "junk" then Some(Junk)
    else if name == "notjunk" then Some(NotJunk)
    else if name == "phishing" then Some(Phishing)
    else if name == "important" then Some(Important)
    else if name == "mdnsent" then Some(MdnSent)
    else None
  }

  function CanonicalRaw(iana: IanaFlag): string {
    match iana
    case Seen => "\\Seen"
    case Answered => "\\Answered"
    case Flagged => "\\Flagged"
    case Draft => "\\Draft"
    case Deleted => "\\Deleted"
    case Forwarded => "$Forwarded"
    case Junk => "$Junk"
    case NotJunk => "$NotJunk"
    case Phishing => "$Phishing"
    case Important => "$Important"
    case MdnSent => "$MDNSent"
  }

  function FromRaw(raw: string): Flag {
    Flag(raw, ClassifyIana(raw))
  }

  function FromIana(iana: IanaFlag): Flag {
    Flag(CanonicalRaw(iana), Some(iana))
  }

  /** The flags the two constructors can build; the fields are private in the source. */
  ghost predicate Constructed(f: Flag) {
    (exists raw :: f == FromRaw(raw)) || (exists iana :: f == FromIana(iana))
  }

  /** `PartialEq for Flag`. */
  predicate FlagEq(a: Flag, b: Flag) {
    match (a.iana, b.iana)
    case (Some(x), Some(y)) => x == y
    case (None, None) => LowerAscii(a.raw) == LowerAscii(b.raw)
    case _ => false
  }

  /** Declaration order of the IANA table. */
  function Rank(iana: IanaFlag): nat {
    match iana
    case Seen => 0
    case Answered => 1
    case Flagged => 2
    case Draft => 3
    case Deleted => 4
    case Forwarded => 5
    case Junk => 6
    case NotJunk => 7
    case Phishing => 8
    case Important => 9
    case MdnSent => 10
  }

  /** `Ord for Flag`. */
  function FlagCmp(a: Flag, b: Flag): Ordering {
    match (a.iana, b.iana)
    case (Some(x), Some(y)) => CmpInt(Rank(x), Rank(y))
    case (Some(_), None) => Less
    case (None, Some(_)) => Greater
    case (None, None) => CmpString(LowerAscii(a.raw), LowerAscii(b.raw))
  }

  /** What `Hash for Flag` feeds the hasher, one entry per `hash` call. */
  datatype HashInput = Tag(code: nat) | Iana(iana: IanaFlag) | Text(c: char)

  function HashFeed(f: Flag): seq<HashInput> {
    match f.iana
    case Some(iana) => [Tag(0), Iana(iana)]
    case None => [Tag(1)] + Texts(LowerAscii(f.raw))
  }

  function Texts(s: string): seq<HashInput> {
    seq(|s|, i requires 0 <= i < |s| => Text(s[i]))
  }

  /** The normalised key of a flag; a `BTreeSet<Flag>` is modelled as a set of keys. */
  datatype FlagKey = Known(iana: IanaFlag) | Custom(name: string)

  function Key(f: Flag): FlagKey {
    match f.iana
    case Some(iana) => Known(iana)
    case None => Custom(LowerAscii(f.raw))
  }

  /** Key of a wire spelling. */
  function KeyOf(raw: string): FlagKey {
    Key(FromRaw(raw))
  }

  function KeysOf(raws: set<string>): set<FlagKey> {
    set raw | raw in raws :: KeyOf(raw)
  }

  /** The keys are those of the spellings. */
  ghost predicate FlagsSpell(keys: set<FlagKey>, raws: set<string>) {
    forall key :: key in keys <==> exists raw :: raw in raws && KeyOf(raw) == key
  }

  /** JMAP keyword of a flag (src/jmap/convert.rs). */
  function KeywordFrom(f: Flag): string {
    match f.iana
    case Some(Seen) => "$seen"
    case Some(Answered) => "$answered"
    case Some(Flagged) => "$flagged"
    case Some(Draft) => "$draft"
    case Some(Deleted) => "$deleted"
    case Some(Forwarded) => "$forwarded"
    case Some(Junk) => "$junk"
    case Some(NotJunk) => "$notjunk"
    case Some(Phishing) => "$phishing"
    case Some(Important) => "$important"
    case Some(MdnSent) => "$mdnsent"
    case None => f.raw
  }

  /** Equality, ordering and hashing all factor through the key. */
  lemma {:induction false} EqualityIsKeyEquality(a: Flag, b: Flag)
    ensures FlagEq(a, b) <==> Key(a) == Key(b)
    ensures FlagCmp(a, b) == Equal <==> Key(a) == Key(b)
    ensures HashFeed(a) == HashFeed(b) <==> Key(a) == Key(b)
  {
    if a.iana.None? && b.iana.None? {
      var la, lb := LowerAscii(a.raw), LowerAscii(b.raw);
      CmpStringEqual(la, lb);
      if HashFeed(a) == HashFeed(b) {
        assert |la| == |HashFeed(a)| - 1 == |lb|;
        forall i | 0 <= i < |la| ensures la[i] == lb[i] {
          assert HashFeed(a)[1 + i] == Text(la[i]) && HashFeed(b)[1 + i] == Text(lb[i]);
        }
      }
    } else if a.iana.Some? && b.iana.Some? {
      assert HashFeed(a)[1] == Iana(a.iana.value) && HashFeed(b)[1] == Iana(b.iana.value);
    } else {
      assert HashFeed(a)[0] != HashFeed(b)[0];
    }
  }

  lemma {:induction false} CmpReverses(a: Flag, b: Flag)
    ensures FlagCmp(b, a) == FlagCmp(a, b).Reverse()
  {
    CmpStringReverse(LowerAscii(a.raw), LowerAscii(b.raw));
  }

  /** `FlagCmp` is a total order whose equality is `FlagEq`. */
  lemma {:induction false} CmpIsTotalOrder(a: Flag, b: Flag, c: Flag)
    ensures FlagCmp(a, b) != Greater || FlagCmp(b, a) != Greater
    ensures FlagCmp(a, b) != Greater && FlagCmp(b, a) != Greater <==> FlagEq(a, b)
    ensures FlagCmp(a, b) != Greater && FlagCmp(b, c) != Greater ==> FlagCmp(a, c) != Greater
  {
    CmpReverses(a, b);
    EqualityIsKeyEquality(a, b);
    if a.iana.None? && b.iana.None? && c.iana.None?
       && FlagCmp(a, b) != Greater && FlagCmp(b, c) != Greater {
      CmpStringTransitive(LowerAscii(a.raw), LowerAscii(b.raw), LowerAscii(c.raw));
    }
  }

  lemma {:induction false} LowerAsciiIs(s: string, t: string)
    requires |s| == |t| && forall i | 0 <= i < |s| :: LowerChar(s[i]) == t[i]
    ensures LowerAscii(s) == t
  {
  }

  function Name(iana: IanaFlag): string {
    match iana
    case Seen => "seen"
    case Answered => "answered"
    case Flagged => "flagged"
    case Draft => "draft"
    case Deleted => "deleted"
    case Forwarded => "forwarded"
    case Junk => "junk"
    case NotJunk => "notjunk"
    case Phishing => "phishing"
    case Important => "important"
    case MdnSent => "mdnsent"
  }

  lemma {:induction false} NameIdentifies(iana: IanaFlag)
    ensures ClassifyName(Name(iana)) == Some(iana)
  {
  }

  lemma {:induction false} NameIsLower(iana: IanaFlag)
    ensures LowerAscii(Name(iana)) == Name(iana)
  {
    LowerAsciiIs(Name(iana), Name(iana));
  }

  lemma {:induction false} SystemFlagLowers(iana: IanaFlag)
    requires Rank(iana) <= 4
    ensures LowerAscii(StripMarker(CanonicalRaw(iana))) == Name(iana)
  {
    LowerAsciiIs(StripMarker(CanonicalRaw(iana)), Name(iana));
  }

  lemma {:induction false} KeywordLowers(iana: IanaFlag)
    requires Rank(iana) > 4
    ensures LowerAscii(StripMarker(CanonicalRaw(iana))) == Name(iana)
  {
    LowerAsciiIs(StripMarker(CanonicalRaw(iana)), Name(iana));
  }

  lemma {:induction false} ClassifyCanonical(iana: IanaFlag)
    ensures ClassifyIana(CanonicalRaw(iana)) == Some(iana)
  {
    if Rank(iana) <= 4 {
      SystemFlagLowers(iana);
    } else {
      KeywordLowers(iana);
    }
    NameIdentifies(iana);
  }

  /** Lower-casing moves the letters `A` to `Z` to `a` to `z` and nothing else. */
  lemma {:induction false} LowersLetters(c: char)
    ensures 'A' <= c <= 'Z' ==>
      'a' <= LowerChar(c) <= 'z' && LowerChar(c) as int - 'a' as int == c as int - 'A' as int
    ensures !('A' <= c <= 'Z') ==> LowerChar(c) == c
  {
  }

  lemma {:induction false} NameIff(name: string, iana: IanaFlag)
    ensures ClassifyName(name) == Some(iana) <==> name == Name(iana)
  {
    NameIdentifies(iana);
  }

  lemma {:induction false} NoMarkerInName(iana: IanaFlag)
    ensures Name(iana) != "" && 'a' <= Name(iana)[0] <= 'z'
  {
  }

  /** A spelling is classified exactly when it is a registered name in any case, with at most one marker before it. */
  lemma {:induction false} ClassifyIff(raw: string, iana: IanaFlag)
    ensures ClassifyIana(raw) == Some(iana) <==>
      || LowerAscii(raw) == Name(iana)
      || (raw != "" && (raw[0] == '\\' || raw[0] == '$') && LowerAscii(raw[1..]) == Name(iana))
  {
    NameIff(LowerAscii(StripMarker(raw)), iana);
    NoMarkerInName(iana);
    if raw != "" {
      assert LowerAscii(raw)[0] == LowerChar(raw[0]);
    }
  }

  /** IMAP's system flags are spelled with a backslash, the other registered keywords with a dollar sign. */
  lemma {:induction false} CanonicalMarker(iana: IanaFlag)
    ensures CanonicalRaw(iana) != "" && StripMarker(CanonicalRaw(iana)) == CanonicalRaw(iana)[1..]
    ensures CanonicalRaw(iana)[0] == if iana in {Seen, Answered, Flagged, Draft, Deleted} then '\\' else '$'
  {
  }

  /** Registered flags sort first, in the order of the table; custom ones follow, by lower-cased spelling. */
  lemma {:induction false} CmpOrders(a: Flag, b: Flag)
    ensures a.iana.Some? && b.iana.None? ==> FlagCmp(a, b) == Less
    ensures a.iana.None? && b.iana.None? ==> FlagCmp(a, b) == CmpString(LowerAscii(a.raw), LowerAscii(b.raw))
    ensures FlagCmp(FromIana(Seen), FromIana(Answered)) == Less
    ensures FlagCmp(FromIana(Answered), FromIana(Flagged)) == Less
    ensures FlagCmp(FromIana(Flagged), FromIana(Draft)) == Less
    ensures FlagCmp(FromIana(Draft), FromIana(Deleted)) == Less
    ensures FlagCmp(FromIana(Deleted), FromIana(Forwarded)) == Less
    ensures FlagCmp(FromIana(Forwarded), FromIana(Junk)) == Less
    ensures FlagCmp(FromIana(Junk), FromIana(NotJunk)) == Less
    ensures FlagCmp(FromIana(NotJunk), FromIana(Phishing)) == Less
    ensures FlagCmp(FromIana(Phishing), FromIana(Important)) == Less
    ensures FlagCmp(FromIana(Important), FromIana(MdnSent)) == Less
  {
  }

  /** The JMAP keyword of a registered flag is its name after a dollar sign, that of any other flag its own spelling. */
  lemma {:induction false} KeywordIsName(f: Flag)
    ensures KeywordFrom(f) == if f.iana.Some? then "$" + Name(f.iana.value) else f.raw
  {
  }

  lemma {:induction false} ClassifyKeyword(f: Flag)
    requires f.iana.Some?
    ensures ClassifyIana(KeywordFrom(f)) == f.iana
  {
    var name := Name(f.iana.value);
    KeywordIsName(f);
    assert StripMarker("$" + name) == name;
    NameIsLower(f.iana.value);
    NameIdentifies(f.iana.value);
  }

  lemma {:induction false} ConstructedIsConsistent(f: Flag)
    ensures Constructed(f) <==> f == FromRaw(f.raw)
  {
    if f.iana.Some? {
      ClassifyCanonical(f.iana.value);
    }
  }

  /** A flag survives the trip through its JMAP keyword exactly when an untagged spelling really is untagged. */
  lemma {:induction false} KeywordRoundTripIff(f: Flag)
    ensures FlagEq(FromRaw(KeywordFrom(f)), f) <==> (f.iana.None? ==> ClassifyIana(f.raw).None?)
  {
    if f.iana.Some? {
      ClassifyKeyword(f);
    }
  }

  /** Every flag either constructor can build survives the trip through its JMAP keyword. */
  lemma {:induction false} KeywordRoundTrip(f: Flag)
    requires Constructed(f)
    ensures FlagEq(FromRaw(KeywordFrom(f)), f)
    ensures KeyOf(KeywordFrom(f)) == Key(f)
  {
    ConstructedIsConsistent(f);
    KeywordRoundTripIff(f);
    EqualityIsKeyEquality(FromRaw(KeywordFrom(f)), f);
  }
}
