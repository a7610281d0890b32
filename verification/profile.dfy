/**
 The user profile (`UserContext`): the saved profile is laid over the
 defaults, and fields from older versions of the app are carried into the
 current ones (single strings become lists, renamed fields are copied over).
 */
module Profile {
  import opened Common
  import opened Json

  type Profile = map<string, Json>

  const ListFields: set<string> := {"lifeExperience", "coreRelationships", "interests", "pets"}
  const RenamedFields: set<string> := {"residence", "schoolWork", "identity"}

  /** The profile of a new user. `pets` is still a string here, unlike on the migration path. */
  const DefaultProfile: Profile := map[
    "username" := JStr(""), "nickname" := JStr(""), "birthday" := JStr(""),
    "identity" := JStr(""), "schoolWork" := JStr(""), "schoolWorkLocation" := JStr(""),
    "residence" := JStr(""), "personality" := JStr(""), "valuesPositive" := JStr(""),
    "valuesNegative" := JStr(""), "lifeExperience" := JArr([]), "shortTermGoals" := JStr(""),
    "coreRelationships" := JArr([]), "interests" := JArr([]), "pets" := JStr("")]

  /** A field filled from its old name when the new one is empty. */
  function CarryOver(m: Profile, saved: Profile, field: string, legacy: string): (r: Profile)
    requires field in m
    ensures r.Keys == m.Keys
    ensures Truthy(m[field]) || !TruthyAt(saved, legacy) ==> r == m
    ensures !Truthy(m[field]) && TruthyAt(saved, legacy) ==> r == m[field := saved[legacy]]
  {
    if !Truthy(m[field]) && TruthyAt(saved, legacy) then m[field := saved[legacy]] else m
  }

  function Record(fields: map<string, Json>): Json { JObj(fields) }

  /** `lifeExperience`: a non-empty string becomes one entry from the past; anything else that is not a list becomes an empty list. */
  function LifeExperience(v: Json): (r: Json)
    ensures r.JArr?
    ensures v.JArr? ==> r == v
    ensures v.JStr? && v.s != "" ==> r == JArr([Record(map["year" := JStr("Past"), "content" := v])])
    ensures !v.JArr? && !(v.JStr? && v.s != "") ==> r == JArr([])
  {
    if v.JStr? && v.s != "" then JArr([Record(map["year" := JStr("Past"), "content" := v])])
    else if !v.JArr? then JArr([])
    else v
  }

  function RelationshipEntry(name: string, relation: string, note: Json): Json {
    Record(map["name" := JStr(name), "relation" := JStr(relation), "note" := note])
  }

  /** The relationship entries built from the old family and relationships fields; the old text itself only when neither is set. */
  function LegacyRelationships(v: string, saved: Profile): (r: seq<Json>)
    ensures |r| <= 2
    ensures TruthyAt(saved, "family") ==> RelationshipEntry("Family", "Family", saved["family"]) in r
    ensures TruthyAt(saved, "relationships") ==> RelationshipEntry("Relationships", "Friends", saved["relationships"]) in r
    ensures TruthyAt(saved, "family") || TruthyAt(saved, "relationships") ==>
              r == (if TruthyAt(saved, "family") then [RelationshipEntry("Family", "Family", saved["family"])] else [])
                   + (if TruthyAt(saved, "relationships") then [RelationshipEntry("Relationships", "Friends", saved["relationships"])] else [])
    ensures !TruthyAt(saved, "family") && !TruthyAt(saved, "relationships") ==>
              r == if v != "" then [RelationshipEntry("Others", "General", JStr(v))] else []
  {
    var family := if TruthyAt(saved, "family") then [RelationshipEntry("Family", "Family", saved["family"])] else [];
    var friends := if TruthyAt(saved, "relationships") then [RelationshipEntry("Relationships", "Friends", saved["relationships"])] else [];
    var others := if v != "" && !TruthyAt(saved, "family") && !TruthyAt(saved, "relationships") then [RelationshipEntry("Others", "General", JStr(v))] else [];
    family + friends + others
  }

  /** `coreRelationships`: a string becomes the legacy entries; anything else that is not a list becomes an empty list. */
  function CoreRelationships(v: Json, saved: Profile): (r: Json)
    ensures r.JArr?
    ensures v.JArr? ==> r == v
    ensures v.JStr? ==> r == JArr(LegacyRelationships(v.s, saved))
    ensures !v.JArr? && !v.JStr? ==> r == JArr([])
  {
    if v.JStr? then JArr(LegacyRelationships(v.s, saved))
    else if !v.JArr? then JArr([])
    else v
  }

  function Strings(items: seq<string>): (r: seq<Json>)
    ensures |r| == |items| && forall k :: 0 <= k < |items| ==> r[k] == JStr(items[k])
  {
    seq(|items|, k requires 0 <= k < |items| => JStr(items[k]))
  }

  /** `interests`: a string becomes its comma-separated items; anything else that is not a list becomes an empty list. */
  function Interests(v: Json): (r: Json)
    ensures r.JArr?
    ensures v.JArr? ==> r == v
    ensures v.JStr? ==> r == JArr(Strings(SplitList(v.s)))
    ensures !v.JArr? && !v.JStr? ==> r == JArr([])
  {
    if v.JStr? then JArr(if v.s != "" then Strings(SplitList(v.s)) else [])
    else if !v.JArr? then JArr([])
    else v
  }

  /** `pets`: a non-empty string becomes one pet; anything else that is not a list becomes an empty list. */
  function Pets(v: Json): (r: Json)
    ensures r.JArr?
    ensures v.JArr? ==> r == v
    ensures v.JStr? && v.s != "" ==> r == JArr([Record(map["name" := JStr("Pet"), "type" := JStr("Pet"), "note" := v])])
    ensures !v.JArr? && !(v.JStr? && v.s != "") ==> r == JArr([])
  {
    if v.JStr? && v.s != "" then JArr([Record(map["name" := JStr("Pet"), "type" := JStr("Pet"), "note" := v])])
    else if !v.JArr? then JArr([])
    else v
  }

  /** The names the renamed fields had in older versions. */
  const LegacyNames: set<string> := {"location", "workplace", "occupation"}

  /** What the migration needs of the defaults: every list field and renamed field has one, no old name has one. */
  predicate DefaultsShaped(defaults: Profile) {
    ListFields <= defaults.Keys && RenamedFields <= defaults.Keys && LegacyNames !! defaults.Keys
  }

  /** The defaults have that shape, and the renamed fields default to empty text. */
  lemma DefaultShape()
    ensures DefaultsShaped(DefaultProfile)
    ensures forall f :: f in RenamedFields ==> DefaultProfile[f] == JStr("")
  {
    LegacyHasNoDefault("location");
    LegacyHasNoDefault("workplace");
    LegacyHasNoDefault("occupation");
  }

  /** An old field name has no default. */
  lemma LegacyHasNoDefault(k: string)
    requires k in LegacyNames
    ensures k !in DefaultProfile
  {
  }

  /** The renamed fields carried over from their old names. */
  function WithRenamed(m: Profile, saved: Profile): (r: Profile)
    requires RenamedFields <= m.Keys
    ensures r.Keys == m.Keys
    ensures forall k :: k in m && k !in RenamedFields ==> r[k] == m[k]
    ensures forall k :: k in RenamedFields ==> Truthy(r[k]) || r[k] == m[k]
  {
    var m1 := CarryOver(m, saved, "residence", "location");
    var m2 := CarryOver(m1, saved, "schoolWork", "workplace");
    CarryOver(m2, saved, "identity", "occupation")
  }

  /** The migration of one list field's value. */
  function ListValue(field: string, v: Json, saved: Profile): (r: Json)
    requires field in ListFields
    ensures r.JArr? && (v.JArr? ==> r == v)
  {
    if field == "lifeExperience" then LifeExperience(v)
    else if field == "coreRelationships" then CoreRelationships(v, saved)
    else if field == "interests" then Interests(v)
    else Pets(v)
  }

  /** The four list fields turned into lists. */
  function WithLists(m: Profile, saved: Profile): (r: Profile)
    requires ListFields <= m.Keys
    ensures r.Keys == m.Keys
    ensures forall k :: k in m && k !in ListFields ==> r[k] == m[k]
    ensures forall f :: f in ListFields ==> r[f].JArr? && (m[f].JArr? ==> r[f] == m[f])
  {
    map k | k in m :: if k in ListFields then ListValue(k, m[k], saved) else m[k]
  }

  /** The migration over given defaults: laid over them, renamed fields carried over, lists made lists. */
  function MigrateFrom(defaults: Profile, saved: Profile): (r: Profile)
    requires DefaultsShaped(defaults)
    ensures r.Keys == defaults.Keys + saved.Keys
    ensures forall f :: f in ListFields ==> r[f].JArr?
    ensures forall k :: k in saved && k !in ListFields && k !in RenamedFields ==> r[k] == saved[k]
    ensures forall k :: k in defaults && k !in saved && k !in ListFields && k !in RenamedFields ==> r[k] == defaults[k]
  {
    WithLists(WithRenamed(Spread(defaults, saved), saved), saved)
  }

  /** The migration of a saved profile object: laid over the defaults, renamed fields carried over, lists made lists. */
  function Migrate(saved: Profile): (r: Profile)
    ensures r.Keys == DefaultProfile.Keys + saved.Keys
    ensures forall f :: f in ListFields ==> r[f].JArr?
    ensures forall k :: k in saved && k !in ListFields && k !in RenamedFields ==> r[k] == saved[k]
    ensures forall k :: k in DefaultProfile && k !in saved && k !in ListFields && k !in RenamedFields ==> r[k] == DefaultProfile[k]
  {
    DefaultShape();
    MigrateFrom(DefaultProfile, saved)
  }

  /** What the saved text held: nothing, text that does not parse, or a value. */
  datatype Saved = Missing | Unparsable | Parsed(value: Json)

  /**
   The profile on start: a saved object is migrated; so is a saved array,
   whose spread contributes its indices as keys; anything else gives the
   defaults.
   */
  function LoadProfile(saved: Saved): (r: Profile)
    ensures saved.Parsed? && saved.value.JObj? ==> r == Migrate(saved.value.fields)
    ensures saved.Parsed? && saved.value.JArr? ==> r == Migrate(IndexObject(saved.value.items))
    ensures !(saved.Parsed? && (saved.value.JObj? || saved.value.JArr?)) ==> r == DefaultProfile
  {
    match saved
    case Parsed(JObj(fields)) => Migrate(fields)
    case Parsed(JArr(items)) => Migrate(IndexObject(items))
    case _ => DefaultProfile
  }

  /** No profile field name is written in digits. */
  lemma FieldNamesNotDecimal(i: nat)
    ensures Decimal(i) !in ListFields && Decimal(i) !in RenamedFields
  {
    var k := Decimal(i);
    assert '0' <= k[0] <= '9';
  }

  /** A saved array's items land under their indices, next to the default fields. */
  lemma LoadArrayKeepsItems(items: seq<Json>)
    ensures var r := LoadProfile(Parsed(JArr(items)));
            DefaultProfile.Keys <= r.Keys
            && forall i :: 0 <= i < |items| ==> Decimal(i) in r && r[Decimal(i)] == items[i]
  {
    var o := IndexObject(items);
    forall i | 0 <= i < |items| ensures Decimal(i) in Migrate(o) && Migrate(o)[Decimal(i)] == items[i] {
      FieldNamesNotDecimal(i);
    }
  }

  /** One renamed field after the carry-over: its own value, or the old field's value when only that one is set. */
  lemma RenamedEntryOf(m: Profile, saved: Profile, field: string, legacy: string)
    requires RenamedFields <= m.Keys
    requires (field == "residence" && legacy == "location") || (field == "schoolWork" && legacy == "workplace")
             || (field == "identity" && legacy == "occupation")
    ensures WithRenamed(m, saved)[field] == if !Truthy(m[field]) && TruthyAt(saved, legacy) then saved[legacy] else m[field]
  {
    var m1 := CarryOver(m, saved, "residence", "location");
    var m2 := CarryOver(m1, saved, "schoolWork", "workplace");
    var m3 := CarryOver(m2, saved, "identity", "occupation");
    assert WithRenamed(m, saved) == m3;
    if field == "residence" {
      assert m3[field] == m2[field] == m1[field];
    } else if field == "schoolWork" {
      assert m3[field] == m2[field] && m1[field] == m[field];
    } else {
      assert m2[field] == m1[field] == m[field];
    }
  }

  /** One renamed field after migration: the spread value, or the old field's value when only that one is set. */
  lemma RenamedEntry(defaults: Profile, saved: Profile, field: string, legacy: string)
    requires DefaultsShaped(defaults)
    requires (field == "residence" && legacy == "location") || (field == "schoolWork" && legacy == "workplace")
             || (field == "identity" && legacy == "occupation")
    ensures var m := Spread(defaults, saved);
            field in m && MigrateFrom(defaults, saved)[field] == if !Truthy(m[field]) && TruthyAt(saved, legacy) then saved[legacy] else m[field]
  {
    var m := Spread(defaults, saved);
    RenamedEntryOf(m, saved, field, legacy);
  }

  /** A renamed field keeps its own value when set and takes the old one otherwise. */
  lemma RenamedFieldCarried(saved: Profile)
    ensures TruthyAt(saved, "residence") ==> Migrate(saved)["residence"] == saved["residence"]
    ensures !TruthyAt(saved, "residence") && TruthyAt(saved, "location") ==> Migrate(saved)["residence"] == saved["location"]
    ensures !TruthyAt(saved, "residence") && !TruthyAt(saved, "location") ==> !Truthy(Migrate(saved)["residence"])
    ensures TruthyAt(saved, "schoolWork") ==> Migrate(saved)["schoolWork"] == saved["schoolWork"]
    ensures !TruthyAt(saved, "schoolWork") && TruthyAt(saved, "workplace") ==> Migrate(saved)["schoolWork"] == saved["workplace"]
    ensures !TruthyAt(saved, "schoolWork") && !TruthyAt(saved, "workplace") ==> !Truthy(Migrate(saved)["schoolWork"])
    ensures TruthyAt(saved, "identity") ==> Migrate(saved)["identity"] == saved["identity"]
    ensures !TruthyAt(saved, "identity") && TruthyAt(saved, "occupation") ==> Migrate(saved)["identity"] == saved["occupation"]
    ensures !TruthyAt(saved, "identity") && !TruthyAt(saved, "occupation") ==> !Truthy(Migrate(saved)["identity"])
  {
    DefaultShape();
    RenamedEntry(DefaultProfile, saved, "residence", "location");
    RenamedEntry(DefaultProfile, saved, "schoolWork", "workplace");
    RenamedEntry(DefaultProfile, saved, "identity", "occupation");
  }

  /** A renamed field of a migrated profile migrates to itself. */
  lemma RenamedSettled(defaults: Profile, saved: Profile, field: string)
    requires DefaultsShaped(defaults) && field in RenamedFields
    ensures var once := MigrateFrom(defaults, saved);
            field in MigrateFrom(defaults, once) && MigrateFrom(defaults, once)[field] == once[field]
  {
    var legacy := LegacyName(field);
    var once := MigrateFrom(defaults, saved);
    RenamedEntry(defaults, saved, field, legacy);
    RenamedEntry(defaults, once, field, legacy);
    assert Spread(defaults, once)[field] == once[field];
    assert legacy in once <==> legacy in saved;
    assert legacy in saved ==> once[legacy] == saved[legacy];
  }

  /** Over any shaped defaults, migrating a migrated profile changes nothing. */
  lemma MigrateFromIdempotent(defaults: Profile, saved: Profile)
    requires DefaultsShaped(defaults)
    ensures MigrateFrom(defaults, MigrateFrom(defaults, saved)) == MigrateFrom(defaults, saved)
  {
    var once := MigrateFrom(defaults, saved);
    var twice := MigrateFrom(defaults, once);
    assert twice.Keys == once.Keys;
    forall k | k in once ensures twice[k] == once[k] {
      FieldSettled(defaults, saved, k);
    }
    SameEntries(twice, once);
  }

  /** Two maps with the same keys and the same value at each are equal. */
  lemma SameEntries(a: Profile, b: Profile)
    requires a.Keys == b.Keys && forall k :: k in b ==> a[k] == b[k]
    ensures a == b
  {
  }

  /** The name a renamed field had in older versions. */
  function LegacyName(field: string): (legacy: string)
    requires field in RenamedFields
    ensures (field == "residence" && legacy == "location") || (field == "schoolWork" && legacy == "workplace")
            || (field == "identity" && legacy == "occupation")
  {
    if field == "residence" then "location" else if field == "schoolWork" then "workplace" else "occupation"
  }

  /** Every field of a migrated profile migrates to itself. */
  lemma FieldSettled(defaults: Profile, saved: Profile, k: string)
    requires DefaultsShaped(defaults) && k in MigrateFrom(defaults, saved)
    ensures var once := MigrateFrom(defaults, saved);
            k in MigrateFrom(defaults, once) && MigrateFrom(defaults, once)[k] == once[k]
  {
    if k in RenamedFields {
      RenamedSettled(defaults, saved, k);
    } else if k in ListFields {
      ListSettled(defaults, saved, k);
    } else {
      OtherSettled(defaults, saved, k);
    }
  }


  /** No list field was renamed. */
  lemma ListNotRenamed()
    ensures ListFields !! RenamedFields
  {
  }

  /** A list field of a migrated profile is a list, which migrates to itself. */
  lemma ListSettled(defaults: Profile, saved: Profile, k: string)
    requires DefaultsShaped(defaults) && k in ListFields
    ensures var once := MigrateFrom(defaults, saved);
            MigrateFrom(defaults, once)[k] == once[k]
  {
    ListNotRenamed();
    var once := MigrateFrom(defaults, saved);
    var m := Spread(defaults, once);
    var renamed := WithRenamed(m, once);
    assert MigrateFrom(defaults, once) == WithLists(renamed, once);
    assert m[k] == once[k];
    assert renamed[k] == m[k];
  }

  /** Any other field of a migrated profile migrates to itself. */
  lemma OtherSettled(defaults: Profile, saved: Profile, k: string)
    requires DefaultsShaped(defaults) && k !in ListFields && k !in RenamedFields
    requires k in MigrateFrom(defaults, saved)
    ensures var once := MigrateFrom(defaults, saved);
            MigrateFrom(defaults, once)[k] == once[k]
  {
  }

  /** A migrated profile is saved again and loaded on the next start: the second migration changes nothing. */
  lemma MigrateIdempotent(saved: Profile)
    ensures Migrate(Migrate(saved)) == Migrate(saved)
  {
    DefaultShape();
    MigrateFromIdempotent(DefaultProfile, saved);
  }

  /** `updateProfile`: a shallow merge; applying the same update twice is applying it once. */
  function UpdateProfile(p: Profile, updates: Profile): (r: Profile)
    ensures r.Keys == p.Keys + updates.Keys
    ensures forall k :: k in updates ==> r[k] == updates[k]
    ensures forall k :: k in p && k !in updates ==> r[k] == p[k]
  {
    Spread(p, updates)
  }
}
