/**
 The persona and API-connection lists of `AIContext`. Both are lists of
 entries with an id and an `isDefault` flag; built-in entries cannot be
 deleted, deleting the selected entry falls back to a built-in id, and the
 selected entry is the one with the selected id or else the first. Entry
 payloads are type parameters; an update is the payload change its
 `{ ...entry, ...updates }` spread makes.
 */
module Registry {
  import opened Common

  datatype Entry<P(!new)> = Entry(id: string, isDefault: bool, payload: P)

  /** A persona: how the companion talks. */
  datatype PersonaFields = PersonaFields(name: string, description: string, replyStyle: string, customPrompt: string)

  /** A connection to a model provider; `kind` is the stored `type`. */
  datatype ConfigFields = ConfigFields(
    name: string,
    kind: string,
    provider: Option<string>,
    apiKey: string,
    baseUrl: string,
    model: Option<string>)

  type Persona = Entry<PersonaFields>
  type ApiConfig = Entry<ConfigFields>

  const DefaultPersonaId: string := "default"
  const DefaultConfigId: string := "official"

  /** The built-in connection of a fresh install. */
  const OfficialConfig: ApiConfig :=
    Entry(DefaultConfigId, true, ConfigFields("Official OpenAI", "official", None, "", "https://api.openai.com/v1", None))

  function Ids<P(!new)>(es: seq<Entry<P>>): (r: seq<string>)
    ensures |r| == |es|
    ensures forall i :: 0 <= i < |es| ==> r[i] == es[i].id
  {
    seq(|es|, i requires 0 <= i < |es| => es[i].id)
  }

  /** The position of the first entry with that id. */
  function IdIndex<P(!new)>(es: seq<Entry<P>>, id: string): (r: Option<nat>)
    ensures r.Some? ==> r.value < |es| && es[r.value].id == id && forall j :: 0 <= j < r.value ==> es[j].id != id
    ensures r.None? <==> id !in Ids(es)
  {
    if |es| == 0 then None
    else if es[0].id == id then
      assert Ids(es)[0] == id;
      Some(0)
    else
      assert Ids(es) == [es[0].id] + Ids(es[1..]);
      match IdIndex(es[1..], id)
      case None => None
      case Some(i) => Some(i + 1)
  }

  /** `es.find(e => e.id === id)` */
  function FindEntry<P(!new)>(es: seq<Entry<P>>, id: string): (r: Option<Entry<P>>)
    ensures r.Some? ==> r.value.id == id && r.value in es
    ensures r.None? <==> id !in Ids(es)
  {
    match IdIndex(es, id)
    case None => None
    case Some(i) => Some(es[i])
  }

  // ---------------------------------------------------------------------------
  // Adding, updating, deleting
  // ---------------------------------------------------------------------------

  /** `addPersona` / `addApiConfig`: appended under a fresh id, never a built-in. */
  function Add<P(!new)>(es: seq<Entry<P>>, payload: P, newId: string): (r: seq<Entry<P>>)
    ensures |r| == |es| + 1 && r[..|es|] == es
    ensures r[|es|] == Entry(newId, false, payload)
  {
    es + [Entry(newId, false, payload)]
  }

  /** `updatePersona` / `updateApiConfig`: the entries with that id get the change; ids, flags and order stay. */
  function Update<P(!new)>(es: seq<Entry<P>>, id: string, change: P -> P): (r: seq<Entry<P>>)
    ensures |r| == |es|
    ensures forall i :: 0 <= i < |es| ==> r[i].id == es[i].id && r[i].isDefault == es[i].isDefault
    ensures forall i :: 0 <= i < |es| && es[i].id == id ==> r[i].payload == change(es[i].payload)
    ensures forall i :: 0 <= i < |es| && es[i].id != id ==> r[i] == es[i]
  {
    seq(|es|, i requires 0 <= i < |es| => if es[i].id == id then es[i].(payload := change(es[i].payload)) else es[i])
  }

  /** Updating with a change that settles after one application settles after one update. */
  lemma UpdateIdempotent<P(!new)>(es: seq<Entry<P>>, id: string, change: P -> P)
    requires forall p :: change(change(p)) == change(p)
    ensures Update(Update(es, id, change), id, change) == Update(es, id, change)
  {
    var once := Update(es, id, change);
    var twice := Update(once, id, change);
    forall i | 0 <= i < |es| ensures twice[i] == once[i] {
      if es[i].id == id {
        assert once[i].payload == change(es[i].payload);
        assert twice[i].payload == change(change(es[i].payload));
      }
    }
  }

  /** The first entry with that id is built in: deleting it is refused. */
  predicate Protected<P(!new)>(es: seq<Entry<P>>, id: string) {
    var e := FindEntry(es, id);
    e.Some? && e.value.isDefault
  }

  function WithoutId<P(!new)>(id: string): Entry<P> -> bool {
    (e: Entry<P>) => e.id != id
  }

  /**
   `deletePersona` / `deleteApiConfig`: nothing happens when the entry is
   built in; otherwise every entry with that id goes, and the selection falls
   back when it named the deleted id. Returns the list and the selected id.
   */
  function Delete<P(!new)>(es: seq<Entry<P>>, id: string, selected: string, fallback: string): (r: (seq<Entry<P>>, string))
    ensures Protected(es, id) ==> r == (es, selected)
    ensures !Protected(es, id) ==> forall e :: e in r.0 <==> e in es && e.id != id
    ensures !Protected(es, id) ==> r.1 == if selected == id then fallback else selected
  {
    if Protected(es, id) then (es, selected)
    else (Filter(es, WithoutId(id)), if selected == id then fallback else selected)
  }

  /** Ids are unique. */
  predicate UniqueIds<P(!new)>(es: seq<Entry<P>>) {
    forall i, j :: 0 <= i < j < |es| ==> es[i].id != es[j].id
  }

  /** With unique ids, a built-in entry survives every delete. */
  lemma BuiltInsSurviveDelete<P(!new)>(es: seq<Entry<P>>, id: string, selected: string, fallback: string)
    requires UniqueIds(es)
    ensures forall e :: e in es && e.isDefault ==> e in Delete(es, id, selected, fallback).0
  {
    forall e | e in es && e.isDefault ensures e in Delete(es, id, selected, fallback).0 {
      if e.id == id {
        var k :| 0 <= k < |es| && es[k] == e;
        assert id in Ids(es) by { assert Ids(es)[k] == id; }
        var i := IdIndex(es, id).value;
        assert i == k;
      }
    }
  }

  /** An entry just added under a fresh id is not built in, so it may be deleted. */
  lemma AddedUnprotected<P(!new)>(es: seq<Entry<P>>, payload: P, newId: string)
    requires newId !in Ids(es)
    ensures !Protected(Add(es, payload, newId), newId)
  {
    var added := Add(es, payload, newId);
    assert Ids(added)[|es|] == newId;
    assert forall j :: 0 <= j < |es| ==> added[j].id == Ids(es)[j];
    assert IdIndex(added, newId).value == |es|;
  }

  /** Dropping an id no entry of the list carries keeps the whole list. */
  lemma WithoutAbsentId<P(!new)>(es: seq<Entry<P>>, id: string)
    requires id !in Ids(es)
    ensures Filter(es, WithoutId(id)) == es
  {
    forall k | 0 <= k < |es| ensures WithoutId(id)(es[k]) {
      assert Ids(es)[k] == es[k].id;
    }
    FilterAll(es, WithoutId(id));
  }

  /** Deleting an entry just added under a fresh id gives the list back. */
  lemma AddThenDelete<P(!new)>(es: seq<Entry<P>>, payload: P, newId: string, selected: string, fallback: string)
    requires newId !in Ids(es)
    ensures Delete(Add(es, payload, newId), newId, selected, fallback).0 == es
  {
    var added := Add(es, payload, newId);
    AddedUnprotected(es, payload, newId);
    FilterAppend(es, [Entry(newId, false, payload)], WithoutId(newId));
    WithoutAbsentId(es, newId);
    assert Filter([Entry(newId, false, payload)], WithoutId(newId)) == [];
  }

  // ---------------------------------------------------------------------------
  // The selected entry
  // ---------------------------------------------------------------------------

  /** `es.find(e => e.id === selected) || es[0]`: `None` only for an empty list. */
  function Selected<P(!new)>(es: seq<Entry<P>>, selected: string): (r: Option<Entry<P>>)
    ensures r.None? <==> |es| == 0
    ensures r.Some? ==> r.value in es
    ensures selected in Ids(es) ==> r == FindEntry(es, selected) && r.value.id == selected
    ensures selected !in Ids(es) && |es| > 0 ==> r == Some(es[0])
  {
    match FindEntry(es, selected)
    case Some(e) => Some(e)
    case None => if |es| == 0 then None else Some(es[0])
  }

  // ---------------------------------------------------------------------------
  // Obsolete built-in personas
  // ---------------------------------------------------------------------------

  /** An entry flagged as built in whose id is no longer among the built-ins. */
  predicate IsObsolete<P(!new)>(e: Entry<P>, builtIns: seq<Entry<P>>) {
    e.isDefault && e.id !in Ids(builtIns)
  }

  function NotObsolete<P(!new)>(builtIns: seq<Entry<P>>): Entry<P> -> bool {
    (e: Entry<P>) => !IsObsolete(e, builtIns)
  }

  /**
   The clean-up on start: nothing changes without obsolete entries; otherwise
   they are removed, and the built-ins are restored if nothing would remain.
   */
  function Cleanup<P(!new)>(ps: seq<Entry<P>>, builtIns: seq<Entry<P>>): (r: seq<Entry<P>>)
    ensures (forall i :: 0 <= i < |ps| ==> !IsObsolete(ps[i], builtIns)) ==> r == ps
    ensures (exists i :: 0 <= i < |ps| && IsObsolete(ps[i], builtIns)) ==>
              if (forall e :: e in ps ==> IsObsolete(e, builtIns)) then r == builtIns
              else forall e :: e in r <==> e in ps && !IsObsolete(e, builtIns)
  {
    if !Any(ps, (e: Entry<P>) => IsObsolete(e, builtIns)) then ps
    else
      var kept := Filter(ps, NotObsolete(builtIns));
      if |kept| == 0 then
        assert forall e :: e in ps ==> IsObsolete(e, builtIns) by {
          forall e | e in ps ensures IsObsolete(e, builtIns) {
            assert !(e in kept);
          }
        }
        builtIns
      else
        assert !(forall e :: e in ps ==> IsObsolete(e, builtIns)) by {
          assert kept[0] in kept;
        }
        kept
  }

  /** No entry is obsolete after the clean-up, so a second clean-up changes nothing. */
  lemma CleanupLeavesNoObsolete<P(!new)>(ps: seq<Entry<P>>, builtIns: seq<Entry<P>>)
    ensures forall i :: 0 <= i < |Cleanup(ps, builtIns)| ==> !IsObsolete(Cleanup(ps, builtIns)[i], builtIns)
    ensures Cleanup(Cleanup(ps, builtIns), builtIns) == Cleanup(ps, builtIns)
  {
    var r := Cleanup(ps, builtIns);
    forall i | 0 <= i < |r| ensures !IsObsolete(r[i], builtIns) {
      if r != ps && r != builtIns {
        assert r[i] in r;
      } else if r == builtIns && r != ps {
        assert Ids(builtIns)[i] == r[i].id;
      }
    }
  }

  /**
   The selection reset as written: it looks for the selected persona among
   obsolete entries of the list the clean-up has already produced, finds none,
   and so never resets the selection.
   */
  function ResetSelectionAsWritten<P(!new)>(ps: seq<Entry<P>>, builtIns: seq<Entry<P>>, selected: string, fallback: string): (r: string)
    ensures r == selected
  {
    var latest := Cleanup(ps, builtIns);
    CleanupLeavesNoObsolete(ps, builtIns);
    if exists i :: 0 <= i < |latest| && latest[i].id == selected && IsObsolete(latest[i], builtIns) then fallback else selected
  }

  /** The case that shows it: a stored obsolete `coach` persona that was selected stays selected after it is removed. */
  lemma ObsoleteCoachStaysSelected<P(!new)>(coach: P, companion: P)
    ensures var builtIns := [Entry("default", true, companion)];
      var ps := [Entry("coach", true, coach), Entry("default", true, companion)];
      && "coach" !in Ids(Cleanup(ps, builtIns))
      && ResetSelectionAsWritten(ps, builtIns, "coach", "default") == "coach"
  {
    var builtIns := [Entry("default", true, companion)];
    var ps := [Entry("coach", true, coach), Entry("default", true, companion)];
    assert Ids(builtIns) == ["default"];
    assert IsObsolete(ps[0], builtIns) && !IsObsolete(ps[1], builtIns);
    var r := Cleanup(ps, builtIns);
    assert ps[1] in r;
    forall e | e in r ensures e.id != "coach" {
    }
  }

  /**
   The reset as intended, judged on the list before the clean-up: with a
   built-in fallback the selection never names a removed obsolete persona,
   and any other selection stays.
   */
  function ResetSelection<P(!new)>(ps: seq<Entry<P>>, builtIns: seq<Entry<P>>, selected: string, fallback: string): (r: string)
    ensures fallback in Ids(builtIns) ==>
              forall i :: 0 <= i < |ps| && IsObsolete(ps[i], builtIns) ==> r != ps[i].id
    ensures (forall i :: 0 <= i < |ps| && ps[i].id == selected ==> !IsObsolete(ps[i], builtIns)) ==> r == selected
  {
    if exists i :: 0 <= i < |ps| && ps[i].id == selected && IsObsolete(ps[i], builtIns) then fallback else selected
  }
}
