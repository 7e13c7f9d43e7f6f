/** Flags as Gmail labels: `\Seen` is the absence of `UNREAD` (src/gmail/convert.rs). */
module GmailLabels {
  import opened Wrappers
  import opened Flags

  const UNREAD := "UNREAD"
  const STARRED := "STARRED"
  const IMPORTANT := "IMPORTANT"
  const DRAFT := "DRAFT"
  const SPAM := "SPAM"

  /** The flags Gmail can express. */
  const SUPPORTED: set<IanaFlag> := {Seen, Flagged, Important, Draft, Junk}

  /** Label of a supported flag, and whether its presence means the flag is absent. */
  function LabelOfIana(i: IanaFlag): (string, bool)
    requires i in SUPPORTED
  {
    match i
    case Seen => (UNREAD, true)
    case Flagged => (STARRED, false)
    case Important => (IMPORTANT, false)
    case Draft => (DRAFT, false)
    case Junk => (SPAM, false)
  }

  function LabelOf(f: Flag): Option<(string, bool)> {
    match f.iana
    case Some(i) => if i in SUPPORTED then Some(LabelOfIana(i)) else None
    case None => Some((f.raw, false))
  }

  function FlagOfLabel(name: string): Option<(IanaFlag, bool)> {
    if name == UNREAD then Some((Seen, true))
    else if name == STARRED then Some((Flagged, false))
    else if name == IMPORTANT then Some((Important, false))
    else if name == DRAFT then Some((Draft, false))
    else if name == SPAM then Some((Junk, false))
    else None
  }

  /** A supported flag is set when its label is there, or not there if inverted. */
  predicate Shows(labels: set<string>, i: IanaFlag)
    requires i in SUPPORTED
  {
    var (name, inverted) := LabelOfIana(i);
    (name in labels) != inverted
  }

  function FlagsOf(labels: set<string>): set<FlagKey> {
    set i | i in SUPPORTED && Shows(labels, i) :: Known(i)
  }

  /** `flags_from_labels`. */
  method FlagsFromLabels(labelIds: seq<string>) returns (flags: set<FlagKey>)
    ensures flags == FlagsOf(set l | l in labelIds)
  {
    flags := {};
    if UNREAD !in labelIds { flags := flags + {Known(Seen)}; }
    if STARRED in labelIds { flags := flags + {Known(Flagged)}; }
    if IMPORTANT in labelIds { flags := flags + {Known(Important)}; }
    if DRAFT in labelIds { flags := flags + {Known(Draft)}; }
    if SPAM in labelIds { flags := flags + {Known(Junk)}; }
  }

  // ----- patches

  datatype Patch = Patch(add: seq<string>, remove: seq<string>)

  /** Labels of the flags with the given polarity, in order. */
  function LabelsOf(flags: seq<Flag>, inverted: bool): seq<string> {
    if flags == [] then []
    else
      var before := LabelsOf(flags[..|flags| - 1], inverted);
      match LabelOf(flags[|flags| - 1])
      case Some((name, i)) => if i == inverted then before + [name] else before
      case None => before
  }

  function CustomLabels(flags: seq<Flag>): seq<string> {
    if flags == [] then []
    else
      var before := CustomLabels(flags[..|flags| - 1]);
      if flags[|flags| - 1].iana.None? then before + [flags[|flags| - 1].raw] else before
  }

  predicate Asks(flags: seq<Flag>, i: IanaFlag) {
    exists f | f in flags :: f.iana == Some(i)
  }

  function Target(wanted: bool, name: string, inverted: bool, p: Patch): Patch {
    if wanted != inverted then p.(add := p.add + [name]) else p.(remove := p.remove + [name])
  }

  function SetPatch(flags: seq<Flag>): Patch {
    var p1 := Target(Asks(flags, Seen), UNREAD, true, Patch([], []));
    var p2 := Target(Asks(flags, Flagged), STARRED, false, p1);
    var p3 := Target(Asks(flags, Important), IMPORTANT, false, p2);
    var p4 := Target(Asks(flags, Draft), DRAFT, false, p3);
    var p5 := Target(Asks(flags, Junk), SPAM, false, p4);
    p5.(add := p5.add + CustomLabels(flags))
  }

  function PatchFor(flags: seq<Flag>, op: FlagOp): Patch {
    match op
    case AddFlags => Patch(LabelsOf(flags, false), LabelsOf(flags, true))
    case RemoveFlags => Patch(LabelsOf(flags, true), LabelsOf(flags, false))
    case SetFlags => SetPatch(flags)
  }

  /** `label_patch`. */
  method LabelPatch(flags: seq<Flag>, op: FlagOp) returns (add: seq<string>, remove: seq<string>)
    ensures Patch(add, remove) == PatchFor(flags, op)
  {
    add, remove := [], [];
    if op == SetFlags {
      var p := Target(Asks(flags, Seen), UNREAD, true, Patch([], []));
      p := Target(Asks(flags, Flagged), STARRED, false, p);
      p := Target(Asks(flags, Important), IMPORTANT, false, p);
      p := Target(Asks(flags, Draft), DRAFT, false, p);
      p := Target(Asks(flags, Junk), SPAM, false, p);
      var custom := Customs(flags);
      add, remove := p.add + custom, p.remove;
    } else {
      for i := 0 to |flags|
        invariant Patch(add, remove) == PatchFor(flags[..i], op)
      {
        assert flags[..i + 1][..i] == flags[..i];
        var name := LabelOf(flags[i]);
        if name.Some? {
          if name.value.1 == (op == AddFlags) {
            remove := remove + [name.value.0];
          } else {
            add := add + [name.value.0];
          }
        }
      }
      assert flags[..|flags|] == flags;
    }
  }

  method Customs(flags: seq<Flag>) returns (labels: seq<string>)
    ensures labels == CustomLabels(flags)
  {
    labels := [];
    for i := 0 to |flags|
      invariant labels == CustomLabels(flags[..i])
    {
      assert flags[..i + 1][..i] == flags[..i];
      if flags[i].iana.None? {
        labels := labels + [flags[i].raw];
      }
    }
    assert flags[..|flags|] == flags;
  }

  /** What `users.messages.modify` does to the labels of a message. */
  function Relabelled(labels: set<string>, p: Patch): set<string> {
    (labels - (set l | l in p.remove)) + (set l | l in p.add)
  }

  /** The same request, additions first: Gmail does not say which side wins. */
  function RelabelledAddFirst(labels: set<string>, p: Patch): set<string> {
    (labels + (set l | l in p.add)) - (set l | l in p.remove)
  }

  // ----- the algebra

  /** The requested flags Gmail can express. */
  function Requested(flags: seq<Flag>): set<FlagKey> {
    set i | i in SUPPORTED && Asks(flags, i) :: Known(i)
  }

  /** What a store should leave: the old flags united with, minus, or replaced by the requested ones. */
  function Wanted(labels: set<string>, flags: seq<Flag>, op: FlagOp): set<FlagKey> {
    match op
    case AddFlags => FlagsOf(labels) + Requested(flags)
    case RemoveFlags => FlagsOf(labels) - Requested(flags)
    case SetFlags => Requested(flags)
  }

  /** A custom keyword, which becomes the label of the same spelling. */
  ghost predicate Custom(flags: seq<Flag>, name: string) {
    exists f | f in flags :: f.iana.None? && f.raw == name
  }

  ghost predicate AllConstructed(flags: seq<Flag>) {
    forall f | f in flags :: Constructed(f)
  }

  /** On a message with any labels, whichever side of the patch is applied first, the store leaves what was wanted. */
  ghost predicate Commutes(flags: seq<Flag>, op: FlagOp) {
    forall labels: set<string> ::
      && FlagsOf(Relabelled(labels, PatchFor(flags, op))) == Wanted(labels, flags, op)
      && FlagsOf(RelabelledAddFirst(labels, PatchFor(flags, op))) == Wanted(labels, flags, op)
  }

  /**
   Custom keywords spelled like a flag label do no harm: `STARRED` and `SPAM` only beside the flag they
   stand for, `UNREAD` only when setting without `\Seen`.
   */
  ghost predicate Harmless(flags: seq<Flag>, op: FlagOp) {
    && (Custom(flags, STARRED) ==> Asks(flags, Flagged))
    && (Custom(flags, SPAM) ==> Asks(flags, Junk))
    && (Custom(flags, UNREAD) ==> op == SetFlags && !Asks(flags, Seen))
  }

  /** `Harmless` flag by flag, for any label. */
  ghost predicate HarmlessFor(flags: seq<Flag>, op: FlagOp, i: IanaFlag)
    requires i in SUPPORTED
  {
    var (name, inverted) := LabelOfIana(i);
    Custom(flags, name) ==> if inverted then op == SetFlags && !Asks(flags, i) else Asks(flags, i)
  }

  /** `FlagOfLabel` undoes `LabelOf` on the supported flags. */
  lemma {:induction false} LabelIdentifies(f: Flag)
    requires f.iana.Some? && f.iana.value in SUPPORTED
    ensures FlagOfLabel(LabelOf(f).value.0) == Some((f.iana.value, LabelOf(f).value.1))
  {
  }

  /** `IMPORTANT` and `DRAFT` are IANA spellings, so no custom keyword can take them. */
  lemma {:induction false} ImportantAndDraftAreIana(flags: seq<Flag>)
    requires AllConstructed(flags)
    ensures !Custom(flags, IMPORTANT) && !Custom(flags, DRAFT)
  {
    LowerAsciiIs(IMPORTANT, "important");
    LowerAsciiIs(DRAFT, "draft");
    forall f | f in flags && f.iana.None? ensures f.raw != IMPORTANT && f.raw != DRAFT {
      ConstructedIsConsistent(f);
    }
  }

  lemma {:induction false} HarmlessIsPerFlag(flags: seq<Flag>, op: FlagOp)
    requires AllConstructed(flags)
    ensures Harmless(flags, op) <==> forall i | i in SUPPORTED :: HarmlessFor(flags, op, i)
  {
    ImportantAndDraftAreIana(flags);
    if forall i | i in SUPPORTED :: HarmlessFor(flags, op, i) {
      assert HarmlessFor(flags, op, Seen) && HarmlessFor(flags, op, Flagged) && HarmlessFor(flags, op, Junk);
    }
  }

  lemma {:induction false} LabelsOfMember(flags: seq<Flag>, inverted: bool, name: string)
    ensures name in LabelsOf(flags, inverted) <==> exists f :: f in flags && LabelOf(f) == Some((name, inverted))
  {
    if flags != [] {
      assert flags == flags[..|flags| - 1] + [flags[|flags| - 1]];
      LabelsOfMember(flags[..|flags| - 1], inverted, name);
    }
  }

  lemma {:induction false} CustomLabelsMember(flags: seq<Flag>, name: string)
    ensures name in CustomLabels(flags) <==> Custom(flags, name)
  {
    if flags != [] {
      assert flags == flags[..|flags| - 1] + [flags[|flags| - 1]];
      CustomLabelsMember(flags[..|flags| - 1], name);
    }
  }

  /** The label of `i` is in the list of its polarity when `i` is asked for, in the plain list also when spelled out. */
  lemma {:induction false} FlagLabelListed(flags: seq<Flag>, i: IanaFlag)
    requires i in SUPPORTED
    ensures var (name, inverted) := LabelOfIana(i);
      && (name in LabelsOf(flags, false) <==> (!inverted && Asks(flags, i)) || Custom(flags, name))
      && (name in LabelsOf(flags, true) <==> inverted && Asks(flags, i))
  {
    var (name, inverted) := LabelOfIana(i);
    LabelsOfMember(flags, true, name);
    LabelsOfMember(flags, false, name);
    forall f, b | f in flags && f.iana.Some? && LabelOf(f) == Some((name, b))
      ensures f.iana == Some(i) && b == inverted
    {
      LabelIdentifies(f);
      LabelIdentifies(FromIana(i));
    }
    if Asks(flags, i) {
      var f :| f in flags && f.iana == Some(i);
      assert LabelOf(f) == Some((name, inverted));
    }
    if Custom(flags, name) {
      var f :| f in flags && f.iana.None? && f.raw == name;
      assert LabelOf(f) == Some((name, false));
    }
  }

  lemma {:induction false} TargetSides(wanted: bool, name: string, inverted: bool, p: Patch, x: string)
    ensures x in Target(wanted, name, inverted, p).add <==> x in p.add || (x == name && wanted != inverted)
    ensures x in Target(wanted, name, inverted, p).remove <==> x in p.remove || (x == name && wanted == inverted)
  {
  }

  lemma {:induction false} SetPatchSides(flags: seq<Flag>, i: IanaFlag)
    requires i in SUPPORTED
    ensures var (name, inverted) := LabelOfIana(i);
      && (name in SetPatch(flags).add <==> Asks(flags, i) != inverted || Custom(flags, name))
      && (name in SetPatch(flags).remove <==> Asks(flags, i) == inverted)
  {
    var x := LabelOfIana(i).0;
    var p1 := Target(Asks(flags, Seen), UNREAD, true, Patch([], []));
    var p2 := Target(Asks(flags, Flagged), STARRED, false, p1);
    var p3 := Target(Asks(flags, Important), IMPORTANT, false, p2);
    var p4 := Target(Asks(flags, Draft), DRAFT, false, p3);
    TargetSides(Asks(flags, Seen), UNREAD, true, Patch([], []), x);
    TargetSides(Asks(flags, Flagged), STARRED, false, p1, x);
    TargetSides(Asks(flags, Important), IMPORTANT, false, p2, x);
    TargetSides(Asks(flags, Draft), DRAFT, false, p3, x);
    TargetSides(Asks(flags, Junk), SPAM, false, p4, x);
    CustomLabelsMember(flags, x);
  }

  /** One supported flag after a store that does it no harm, whichever side of the patch is applied first. */
  lemma {:induction false} OneFlagAfter(labels: set<string>, flags: seq<Flag>, op: FlagOp, i: IanaFlag)
    requires i in SUPPORTED && HarmlessFor(flags, op, i)
    ensures Shows(Relabelled(labels, PatchFor(flags, op)), i) <==> Known(i) in Wanted(labels, flags, op)
    ensures Shows(RelabelledAddFirst(labels, PatchFor(flags, op)), i) <==> Known(i) in Wanted(labels, flags, op)
  {
    FlagLabelListed(flags, i);
    SetPatchSides(flags, i);
  }

  /** A harmful spelling shows on a message without any label, or on one with that label only. */
  lemma {:induction false} HarmShows(flags: seq<Flag>, op: FlagOp, i: IanaFlag)
    requires i in SUPPORTED && !HarmlessFor(flags, op, i)
    ensures !Commutes(flags, op)
  {
    var (name, inverted) := LabelOfIana(i);
    FlagLabelListed(flags, i);
    SetPatchSides(flags, i);
    var labels: set<string> := if op == RemoveFlags then {name} else {};
    var p := PatchFor(flags, op);
    assert (Shows(Relabelled(labels, p), i) != (Known(i) in Wanted(labels, flags, op)))
        || (Shows(RelabelledAddFirst(labels, p), i) != (Known(i) in Wanted(labels, flags, op)));
    assert Known(i) in FlagsOf(Relabelled(labels, p)) <==> Shows(Relabelled(labels, p), i);
  }

  /**
   Label algebra: storing flags commutes with reading them, on every message, exactly when no custom
   keyword is a harmful spelling of a flag label.
   */
  lemma {:induction false} StoreCommutesIff(flags: seq<Flag>, op: FlagOp)
    requires AllConstructed(flags)
    ensures Commutes(flags, op) <==> Harmless(flags, op)
  {
    HarmlessIsPerFlag(flags, op);
    if Harmless(flags, op) {
      forall labels: set<string>
        ensures FlagsOf(Relabelled(labels, PatchFor(flags, op))) == Wanted(labels, flags, op)
        ensures FlagsOf(RelabelledAddFirst(labels, PatchFor(flags, op))) == Wanted(labels, flags, op)
      {
        forall i | i in SUPPORTED
          ensures Shows(Relabelled(labels, PatchFor(flags, op)), i) <==> Known(i) in Wanted(labels, flags, op)
          ensures Shows(RelabelledAddFirst(labels, PatchFor(flags, op)), i) <==> Known(i) in Wanted(labels, flags, op)
        {
          OneFlagAfter(labels, flags, op, i);
        }
      }
    } else {
      var i :| i in SUPPORTED && !HarmlessFor(flags, op, i);
      HarmShows(flags, op, i);
    }
  }

  /** Two requests with the same flags, in any order and with any repetition, leave the same flags. */
  lemma {:induction false} OnlyTheSetMatters(labels: set<string>, flags: seq<Flag>, same: seq<Flag>, op: FlagOp)
    requires AllConstructed(flags) && Harmless(flags, op)
    requires forall f :: f in flags <==> f in same
    ensures FlagsOf(Relabelled(labels, PatchFor(flags, op))) == FlagsOf(Relabelled(labels, PatchFor(same, op)))
  {
    StoreCommutesIff(flags, op);
    StoreCommutesIff(same, op);
    assert Requested(flags) == Requested(same);
    assert forall name :: Custom(flags, name) <==> Custom(same, name);
    assert Commutes(flags, op) && Commutes(same, op);
  }

  /** Which labels show which flags: `\Seen` by the absence of `UNREAD`, four others by their label, no more. */
  predicate IsShown(labels: set<string>, key: FlagKey) {
    || (key == Known(Seen) && "UNREAD" !in labels)
    || (key == Known(Flagged) && "STARRED" in labels)
    || (key == Known(Important) && "IMPORTANT" in labels)
    || (key == Known(Draft) && "DRAFT" in labels)
    || (key == Known(Junk) && "SPAM" in labels)
  }

  lemma {:induction false} FlagTable(labels: set<string>, key: FlagKey)
    ensures key in FlagsOf(labels) <==> IsShown(labels, key)
  {
    assert key in FlagsOf(labels) <==> exists i :: i in SUPPORTED && Shows(labels, i) && Known(i) == key;
    assert "UNREAD" !in labels ==> Seen in SUPPORTED && Shows(labels, Seen);
    assert "STARRED" in labels ==> Flagged in SUPPORTED && Shows(labels, Flagged);
    assert "IMPORTANT" in labels ==> Important in SUPPORTED && Shows(labels, Important);
    assert "DRAFT" in labels ==> Draft in SUPPORTED && Shows(labels, Draft);
    assert "SPAM" in labels ==> Junk in SUPPORTED && Shows(labels, Junk);
  }

  /** The labels that stand for flags. */
  predicate IsFlagLabel(name: string) {
    name in {"UNREAD", "STARRED", "IMPORTANT", "DRAFT", "SPAM"}
  }

  /**
   Any other label is left alone, unless a custom keyword spells it: adding and setting put it on, removing
   takes it off.
   */
  lemma {:induction false} OtherLabels(labels: set<string>, flags: seq<Flag>, op: FlagOp, name: string)
    requires !IsFlagLabel(name)
    ensures name in Relabelled(labels, PatchFor(flags, op)) <==>
      match op
      case AddFlags => name in labels || Custom(flags, name)
      case SetFlags => name in labels || Custom(flags, name)
      case RemoveFlags => name in labels && !Custom(flags, name)
  {
    LabelsOfMember(flags, true, name);
    LabelsOfMember(flags, false, name);
    CustomLabelsMember(flags, name);
    forall f, b | f in flags && LabelOf(f) == Some((name, b)) ensures f.iana.None? && !b {}
    if Custom(flags, name) {
      var f :| f in flags && f.iana.None? && f.raw == name;
      assert LabelOf(f) == Some((name, false));
    }
    SetPatchOther(flags, name);
  }

  lemma {:induction false} SetPatchOther(flags: seq<Flag>, name: string)
    requires !IsFlagLabel(name)
    ensures name in SetPatch(flags).add <==> name in CustomLabels(flags)
    ensures name !in SetPatch(flags).remove
  {
    var p1 := Target(Asks(flags, Seen), UNREAD, true, Patch([], []));
    var p2 := Target(Asks(flags, Flagged), STARRED, false, p1);
    var p3 := Target(Asks(flags, Important), IMPORTANT, false, p2);
    var p4 := Target(Asks(flags, Draft), DRAFT, false, p3);
    TargetSides(Asks(flags, Seen), UNREAD, true, Patch([], []), name);
    TargetSides(Asks(flags, Flagged), STARRED, false, p1, name);
    TargetSides(Asks(flags, Important), IMPORTANT, false, p2, name);
    TargetSides(Asks(flags, Draft), DRAFT, false, p3, name);
    TargetSides(Asks(flags, Junk), SPAM, false, p4, name);
  }
}
