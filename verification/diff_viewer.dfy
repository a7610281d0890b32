/**
 Accepting a suggested rewrite part by part (`DiffViewer`). The word diff
 itself comes from a library outside this model: it is a sequence of parts,
 each unchanged, added or removed, such that the unchanged and removed parts
 spell the original and the unchanged and added parts spell the rewrite.
 */
module DiffViewer {
  import opened Common

  datatype Kind = Unchanged | Added | Removed

  datatype Part = Part(kind: Kind, value: string)

  /** What the user chose for one part: nothing yet, keep the original, or take the change. */
  datatype Decision = Undecided | Rejected | Accepted

  /** The decisions by part index; an index never toggled is undecided. */
  type Decisions = map<nat, Decision>

  function DecisionAt(ds: Decisions, i: nat): Decision {
    if i in ds then ds[i] else Undecided
  }

  /** One click on a part: undecided, then rejected, then accepted, then undecided again. */
  function Next(d: Decision): (r: Decision)
    ensures r != d
  {
    match d
    case Undecided => Rejected
    case Rejected => Accepted
    case Accepted => Undecided
  }

  /** `toggleDecision`: only the clicked index changes. */
  function Toggle(ds: Decisions, i: nat): (r: Decisions)
    ensures DecisionAt(r, i) == Next(DecisionAt(ds, i))
    ensures forall j :: j != i ==> DecisionAt(r, j) == DecisionAt(ds, j)
  {
    ds[i := Next(DecisionAt(ds, i))]
  }

  /** Three clicks on the same part bring its decision back, and no other decision ever moves. */
  lemma ToggleThrice(ds: Decisions, i: nat)
    ensures forall j :: DecisionAt(Toggle(Toggle(Toggle(ds, i), i), i), j) == DecisionAt(ds, j)
  {
    var d := DecisionAt(ds, i);
    assert Next(Next(Next(d))) == d;
  }

  /** What one part adds to the applied text. */
  function Contribution(p: Part, d: Decision): (r: string)
    ensures p.kind == Unchanged ==> r == p.value
    ensures p.kind == Added ==> (r == p.value <==> d != Rejected || p.value == "")
    ensures p.kind == Removed ==> (r == p.value <==> d == Rejected || p.value == "")
    ensures r == "" || r == p.value
  {
    match p.kind
    case Unchanged => p.value
    case Added => if d != Rejected then p.value else ""
    case Removed => if d == Rejected then p.value else ""
  }

  /** `handleApplyChanges`: the contributions of the parts, in order. */
  function Apply(parts: seq<Part>, ds: Decisions): (r: string)
    ensures |r| <= Length(parts)
  {
    if |parts| == 0 then ""
    else
      var n := |parts| - 1;
      Apply(parts[..n], ds) + Contribution(parts[n], DecisionAt(ds, n))
  }

  function Length(parts: seq<Part>): nat {
    if |parts| == 0 then 0 else Length(parts[..|parts| - 1]) + |parts[|parts| - 1].value|
  }

  /** The text the parts of a given kind spell, together with the unchanged ones. */
  function Spell(parts: seq<Part>, with: Kind): string {
    if |parts| == 0 then ""
    else
      var p := parts[|parts| - 1];
      Spell(parts[..|parts| - 1], with) + (if p.kind == Unchanged || p.kind == with then p.value else "")
  }

  /** The original text: unchanged and removed parts. */
  function Original(parts: seq<Part>): string { Spell(parts, Removed) }

  /** The rewrite: unchanged and added parts. */
  function Modified(parts: seq<Part>): string { Spell(parts, Added) }

  /** With no decisions at all, applying gives the whole rewrite. */
  lemma {:induction false} ApplyUndecided(parts: seq<Part>)
    ensures Apply(parts, map[]) == Modified(parts)
  {
    if |parts| > 0 {
      ApplyUndecided(parts[..|parts| - 1]);
    }
  }

  /** Every change rejected: a changed part is rejected wherever it sits. */
  predicate AllRejected(parts: seq<Part>, ds: Decisions) {
    forall i :: 0 <= i < |parts| && parts[i].kind != Unchanged ==> DecisionAt(ds, i) == Rejected
  }

  /** Rejecting every change gives the original back. */
  lemma {:induction false} ApplyAllRejected(parts: seq<Part>, ds: Decisions)
    requires AllRejected(parts, ds)
    ensures Apply(parts, ds) == Original(parts)
  {
    if |parts| > 0 {
      var n := |parts| - 1;
      assert AllRejected(parts[..n], ds) by {
        forall i | 0 <= i < n && parts[..n][i].kind != Unchanged ensures DecisionAt(ds, i) == Rejected {
          assert parts[..n][i] == parts[i];
        }
      }
      ApplyAllRejected(parts[..n], ds);
    }
  }

  /** Every change accepted: the same text as with no decisions. */
  lemma {:induction false} AcceptedActsAsUndecided(parts: seq<Part>, ds: Decisions)
    requires forall i :: 0 <= i < |parts| ==> DecisionAt(ds, i) != Rejected
    ensures Apply(parts, ds) == Modified(parts)
  {
    if |parts| > 0 {
      var n := |parts| - 1;
      assert forall i :: 0 <= i < n ==> DecisionAt(ds, i) != Rejected;
      AcceptedActsAsUndecided(parts[..n], ds);
    }
  }

  /** Changing one part's decision between accepted and undecided never changes the applied text. */
  lemma {:induction false} AcceptedSameAsUndecided(parts: seq<Part>, ds: Decisions, i: nat)
    requires DecisionAt(ds, i) == Accepted
    ensures Apply(parts, ds[i := Undecided]) == Apply(parts, ds)
  {
    if |parts| > 0 {
      var n := |parts| - 1;
      AcceptedSameAsUndecided(parts[..n], ds, i);
      assert Contribution(parts[n], DecisionAt(ds[i := Undecided], n)) == Contribution(parts[n], DecisionAt(ds, n));
    }
  }

  /** A diff without changes applies to the original, whatever was clicked. */
  lemma {:induction false} ApplyWithoutChanges(parts: seq<Part>, ds: Decisions)
    requires forall i :: 0 <= i < |parts| ==> parts[i].kind == Unchanged
    ensures Apply(parts, ds) == Original(parts) == Modified(parts)
  {
    if |parts| > 0 {
      var n := |parts| - 1;
      assert forall i :: 0 <= i < n ==> parts[..n][i].kind == Unchanged;
      ApplyWithoutChanges(parts[..n], ds);
    }
  }

  // ---------------------------------------------------------------------------
  // Whether there is anything to review
  // ---------------------------------------------------------------------------

  /** The parts shown: none when both texts are empty, else the library's diff. */
  function Diffs(original: string, modified: string, diff: seq<Part>): (r: seq<Part>)
    ensures original == "" && modified == "" ==> r == []
    ensures original != "" || modified != "" ==> r == diff
  {
    if original == "" && modified == "" then [] else diff
  }

  predicate HasContentChanges(parts: seq<Part>) {
    exists i :: 0 <= i < |parts| && parts[i].kind != Unchanged
  }

  /** A new title counts only when one was proposed and it differs. */
  predicate HasTitleChange(originalTitle: Option<string>, modifiedTitle: Option<string>) {
    TruthyStr(modifiedTitle) && modifiedTitle != originalTitle
  }

  /** A tag list counts when one was proposed and it differs element by element. */
  predicate HasTagsChange(originalTags: Option<seq<string>>, modifiedTags: Option<seq<string>>) {
    modifiedTags.Some? && modifiedTags != originalTags
  }

  /** Whether the review view is shown rather than "No changes detected". */
  function HasAnyChanges(parts: seq<Part>, originalTitle: Option<string>, modifiedTitle: Option<string>,
                         originalTags: Option<seq<string>>, modifiedTags: Option<seq<string>>): (b: bool)
    ensures !HasContentChanges(parts) && !TruthyStr(modifiedTitle) && modifiedTags.None? ==> !b
    ensures modifiedTitle == Some("") ==> (b <==> HasContentChanges(parts) || HasTagsChange(originalTags, modifiedTags))
    ensures (exists i :: 0 <= i < |parts| && parts[i].kind != Unchanged) ==> b
    ensures TruthyStr(modifiedTitle) && modifiedTitle != originalTitle ==> b
    ensures modifiedTags.Some? && modifiedTags != originalTags ==> b
    ensures modifiedTitle == originalTitle && modifiedTags == originalTags ==> (b <==> HasContentChanges(parts))
    ensures b <==> (exists i :: 0 <= i < |parts| && parts[i].kind != Unchanged)
                   || (TruthyStr(modifiedTitle) && modifiedTitle != originalTitle)
                   || (modifiedTags.Some? && modifiedTags != originalTags)
  {
    HasContentChanges(parts) || HasTitleChange(originalTitle, modifiedTitle) || HasTagsChange(originalTags, modifiedTags)
  }

  /** With no changed part, there is nothing to review for the text, and applying returns the original. */
  lemma NoContentChangesMeansOriginal(parts: seq<Part>, ds: Decisions)
    requires !HasContentChanges(parts)
    ensures Apply(parts, ds) == Original(parts)
  {
    ApplyWithoutChanges(parts, ds);
  }
}
