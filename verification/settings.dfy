/**
 The settings page (`SettingsPage`): the API-connection editor and the data
 backup. A provider chosen from the fixed list decides the base URL of an
 official connection; only a custom connection keeps the URL the user typed.
 Browser storage is a map from its keys to the parsed values it holds.
 */
module Settings {
  import opened Common
  import opened Json
  import opened Endpoints
  import opened Registry

  datatype Provider = Provider(id: string, name: string, baseUrl: string)

  const Providers: seq<Provider> := [
    Provider("openai", "OpenAI", "https://api.openai.com/v1"),
    Provider("deepseek", "DeepSeek", "https://api.deepseek.com"),
    Provider("google", "Google Gemini", "https://" + GeminiHost),
    Provider("custom", "Custom / Local", "")
  ]

  /** `PROVIDERS.find(p => p.id === id)` */
  function ProviderById(id: string): (r: Option<Provider>)
    ensures r.Some? <==> id in {"openai", "deepseek", "google", "custom"}
    ensures r.Some? ==> r.value in Providers && r.value.id == id
  {
    if id == "openai" then Some(Providers[0])
    else if id == "deepseek" then Some(Providers[1])
    else if id == "google" then Some(Providers[2])
    else if id == "custom" then Some(Providers[3])
    else None
  }

  /** The fields of the connection being edited. */
  datatype EditForm = EditForm(name: string, provider: string, apiKey: string, baseUrl: string, model: string)

  /** Which connection the editor is open for. */
  datatype Editing = Closed | Creating | Editing(id: string)

  /** The form of a new connection. */
  const NewForm: EditForm := EditForm("New API Config", "openai", "", "https://api.openai.com/v1", DefaultModel)

  /** `handleEdit`: a connection saved before providers existed gets one from its type; a missing model gets the default. */
  function EditFormOf(c: ConfigFields): (f: EditForm)
    ensures TruthyStr(c.provider) ==> f.provider == c.provider.value
    ensures !TruthyStr(c.provider) ==> f.provider == (if c.kind == "official" then "openai" else "custom")
    ensures f.model == ModelOrDefault(c.model) && f.model != ""
    ensures f.name == c.name && f.apiKey == c.apiKey && f.baseUrl == c.baseUrl
  {
    var provider := if TruthyStr(c.provider) then c.provider.value else if c.kind == "official" then "openai" else "custom";
    EditForm(c.name, provider, c.apiKey, c.baseUrl, ModelOrDefault(c.model))
  }

  /**
   The connection `handleSave` stores: the typed base URL only for a custom
   provider, the provider's own URL otherwise, and the type `custom` exactly
   for a custom provider. A provider outside the list has no URL to read.
   */
  function SavedConfig(f: EditForm): (r: Option<ConfigFields>)
    ensures r.Some? <==> ProviderById(f.provider).Some?
    ensures r.Some? ==> r.value.baseUrl == (if f.provider == "custom" then f.baseUrl else ProviderById(f.provider).value.baseUrl)
    ensures r.Some? ==> (r.value.kind == "custom" <==> f.provider == "custom") && (r.value.kind != "custom" ==> r.value.kind == "official")
    ensures r.Some? ==> r.value.name == f.name && r.value.apiKey == f.apiKey
                        && r.value.provider == Some(f.provider) && r.value.model == Some(f.model)
  {
    match ProviderById(f.provider)
    case None => None
    case Some(p) =>
      var baseUrl := if f.provider == "custom" then f.baseUrl else p.baseUrl;
      var kind := if f.provider == "custom" then "custom" else "official";
      Some(ConfigFields(f.name, kind, Some(f.provider), f.apiKey, baseUrl, Some(f.model)))
  }

  /** The list after saving, and the editor closed; `None` when the provider is unknown (the save throws before any change). */
  function HandleSave(configs: seq<ApiConfig>, editing: Editing, f: EditForm, newId: string): (r: Option<(seq<ApiConfig>, Editing)>)
    requires !editing.Closed?
    ensures r.Some? <==> SavedConfig(f).Some?
    ensures r.Some? ==> r.value.1 == Closed
    ensures r.Some? && editing.Creating? ==> r.value.0 == Add(configs, SavedConfig(f).value, newId)
    ensures r.Some? && editing.Editing? ==>
              |r.value.0| == |configs|
              && (forall i :: 0 <= i < |configs| && configs[i].id == editing.id ==>
                    r.value.0[i] == configs[i].(payload := SavedConfig(f).value))
              && (forall i :: 0 <= i < |configs| && configs[i].id != editing.id ==> r.value.0[i] == configs[i])
  {
    match SavedConfig(f)
    case None => None
    case Some(data) =>
      var configs' := if editing.Creating? then Add(configs, data, newId) else Update(configs, editing.id, _ => data);
      Some((configs', Closed))
  }

  /** Saving an unchanged form over a connection it was opened for, a second time, changes nothing more. */
  lemma SaveTwiceSameAsOnce(configs: seq<ApiConfig>, id: string, f: EditForm, newId: string)
    requires SavedConfig(f).Some?
    ensures HandleSave(HandleSave(configs, Editing(id), f, newId).value.0, Editing(id), f, newId)
            == HandleSave(configs, Editing(id), f, newId)
  {
    var data := SavedConfig(f).value;
    UpdateIdempotent(configs, id, _ => data);
  }

  /**
   `handleProviderChange`: the base URL becomes empty for a custom provider
   and the provider's URL otherwise; the name follows the provider only while
   creating. `None` for an id outside the list.
   */
  function ChangeProvider(f: EditForm, editing: Editing, providerId: string): (r: Option<EditForm>)
    ensures r.Some? <==> ProviderById(providerId).Some?
    ensures r.Some? ==> r.value.provider == providerId
    ensures r.Some? ==> r.value.baseUrl == (if providerId == "custom" then "" else ProviderById(providerId).value.baseUrl)
    ensures r.Some? ==> r.value.name == (if editing.Creating? then ProviderById(providerId).value.name else f.name)
    ensures r.Some? ==> r.value.apiKey == f.apiKey && r.value.model == f.model
  {
    match ProviderById(providerId)
    case None => None
    case Some(p) =>
      Some(f.(provider := providerId, baseUrl := if p.id == "custom" then "" else p.baseUrl,
              name := if editing.Creating? then p.name else f.name))
  }

  /** After a provider change a save stores exactly the URL the change showed, for every provider. */
  lemma ChangeThenSaveKeepsShownUrl(f: EditForm, editing: Editing, providerId: string)
    requires ChangeProvider(f, editing, providerId).Some?
    ensures SavedConfig(ChangeProvider(f, editing, providerId).value).Some?
    ensures SavedConfig(ChangeProvider(f, editing, providerId).value).value.baseUrl == ChangeProvider(f, editing, providerId).value.baseUrl
  {
  }

  /** `handleFetchModels`: no request without a key. */
  predicate MayFetchModels(f: EditForm) {
    f.apiKey != ""
  }

  /** The form after a listing: the first listed model is picked, an empty list changes nothing. */
  function PickFirstModel(f: EditForm, models: seq<string>): (r: EditForm)
    ensures |models| == 0 ==> r == f
    ensures |models| > 0 ==> r == f.(model := models[0]) && r.model in models
  {
    if |models| > 0 then f.(model := models[0]) else f
  }

  /** What the fetch button leads to: a request for the key, the listed models, or the failure shown. */
  datatype FetchOutcome = KeyMissing | Listed(form: EditForm, available: seq<string>) | FetchFailed(message: string)

  /**
   `handleFetchModels`, with the model listing's outcome as a parameter: without
   a key no request is made; a listing offers its models and picks the first;
   a failure leaves the form as it was.
   */
  function FetchModels(f: EditForm, listing: Result<seq<string>, string>): (r: FetchOutcome)
    ensures r.KeyMissing? <==> !MayFetchModels(f)
    ensures r.KeyMissing? <==> f.apiKey == ""
    ensures MayFetchModels(f) && listing.Ok? ==> r == Listed(PickFirstModel(f, listing.value), listing.value)
    ensures MayFetchModels(f) && listing.Err? ==> r == FetchFailed(listing.error)
  {
    if !MayFetchModels(f) then KeyMissing
    else
      match listing
      case Ok(models) => Listed(PickFirstModel(f, models), models)
      case Err(e) => FetchFailed(e)
  }

  // ---------------------------------------------------------------------------
  // Backup
  // ---------------------------------------------------------------------------

  /** Browser storage: each key holds a parsed value, a selected id a string. */
  type Storage = map<string, Json>

  const DiariesKey: string := "chatdairy-entries"
  const PersonasKey: string := "ai_personas"
  const ConfigsKey: string := "ai_api_configs"
  const PersonaIdKey: string := "ai_current_persona_id"
  const ConfigIdKey: string := "ai_current_api_config_id"

  /** `JSON.parse(localStorage.getItem(k) || '[]')`: a missing (or empty) entry reads as an empty list. */
  function StoredList(s: Storage, k: string): Json {
    if k in s then s[k] else JArr([])
  }

  /** `localStorage.getItem(k)`, `null` when missing. */
  function StoredValue(s: Storage, k: string): Json {
    if k in s then s[k] else JNull
  }

  /** `handleExportBackup`: the three lists and the two selected ids. The export date and version are left out. */
  function Export(s: Storage): (backup: Json)
    ensures backup.JObj? && {"diaries", "personas", "apiConfigs", "settings"} <= backup.fields.Keys
    ensures backup.fields["settings"].JObj? && {"currentPersonaId", "currentApiConfigId"} <= backup.fields["settings"].fields.Keys
    ensures forall k :: k in {DiariesKey, PersonasKey, ConfigsKey} && k in s ==> s[k] in backup.fields.Values
    ensures backup.fields["diaries"] == StoredList(s, DiariesKey)
    ensures backup.fields["personas"] == StoredList(s, PersonasKey)
    ensures backup.fields["apiConfigs"] == StoredList(s, ConfigsKey)
    ensures backup.fields["settings"].fields["currentPersonaId"] == StoredValue(s, PersonaIdKey)
    ensures backup.fields["settings"].fields["currentApiConfigId"] == StoredValue(s, ConfigIdKey)
  {
    var settings := JObj(map["currentPersonaId" := StoredValue(s, PersonaIdKey), "currentApiConfigId" := StoredValue(s, ConfigIdKey)]);
    var fields := map[
      "diaries" := StoredList(s, DiariesKey),
      "personas" := StoredList(s, PersonasKey),
      "apiConfigs" := StoredList(s, ConfigsKey),
      "settings" := settings];
    assert fields["diaries"] == StoredList(s, DiariesKey);
    assert fields["personas"] == StoredList(s, PersonasKey);
    assert fields["apiConfigs"] == StoredList(s, ConfigsKey);
    JObj(fields)
  }

  /** `data.k`, `undefined` for a missing key or a value that is not an object. */
  function Field(data: Json, k: string): Option<Json> {
    if data.JObj? && k in data.fields then Some(data.fields[k]) else None
  }

  /** `data.settings?.k` */
  function Setting(data: Json, k: string): Option<Json> {
    match Field(data, "settings")
    case None => None
    case Some(settings) => Field(settings, k)
  }

  /** Writes `v` under `k` when it is truthy. */
  function WriteIfTruthy(s: Storage, k: string, v: Option<Json>): (r: Storage)
    ensures v.Some? && Truthy(v.value) ==> r == s[k := v.value]
    ensures !(v.Some? && Truthy(v.value)) ==> r == s
  {
    if v.Some? && Truthy(v.value) then s[k := v.value] else s
  }

  /** `handleFileChange`: each key is overwritten only when the backup holds a truthy value for it. */
  function Import(s: Storage, data: Json): (r: Storage)
    ensures s.Keys <= r.Keys <= s.Keys + BackupKeys
    ensures forall k :: k in s && k !in BackupKeys ==> r[k] == s[k]
  {
    var s1 := WriteIfTruthy(s, DiariesKey, Field(data, "diaries"));
    var s2 := WriteIfTruthy(s1, PersonasKey, Field(data, "personas"));
    var s3 := WriteIfTruthy(s2, ConfigsKey, Field(data, "apiConfigs"));
    var s4 := WriteIfTruthy(s3, PersonaIdKey, Setting(data, "currentPersonaId"));
    WriteIfTruthy(s4, ConfigIdKey, Setting(data, "currentApiConfigId"))
  }

  /** The backup keys and where each one lives in a backup. */
  function BackupValue(data: Json, k: string): Option<Json> {
    if k == DiariesKey then Field(data, "diaries")
    else if k == PersonasKey then Field(data, "personas")
    else if k == ConfigsKey then Field(data, "apiConfigs")
    else if k == PersonaIdKey then Setting(data, "currentPersonaId")
    else Setting(data, "currentApiConfigId")
  }

  const BackupKeys: set<string> := {DiariesKey, PersonasKey, ConfigsKey, PersonaIdKey, ConfigIdKey}

  /** What import leaves under one key: the backup's value when it is truthy, the stored one otherwise. */
  function ImportedAt(s: Storage, data: Json, k: string): Option<Json> {
    var v := BackupValue(data, k);
    if k in BackupKeys && v.Some? && Truthy(v.value) then v
    else if k in s then Some(s[k])
    else None
  }

  /** The five storage keys are different keys. */
  lemma BackupKeysDistinct()
    ensures DiariesKey != PersonasKey && DiariesKey != ConfigsKey && DiariesKey != PersonaIdKey && DiariesKey != ConfigIdKey
    ensures PersonasKey != ConfigsKey && PersonasKey != PersonaIdKey && PersonasKey != ConfigIdKey
    ensures ConfigsKey != PersonaIdKey && ConfigsKey != ConfigIdKey && PersonaIdKey != ConfigIdKey
  {
  }

  /** What import leaves under one key. */
  lemma ImportAt(s: Storage, data: Json, k: string)
    ensures k in Import(s, data) <==> ImportedAt(s, data, k).Some?
    ensures k in Import(s, data) ==> Import(s, data)[k] == ImportedAt(s, data, k).value
  {
    if k in BackupKeys {
      ImportAtBackupKey(s, data, k);
    } else {
      ImportKeepsOther(s, data, k);
    }
  }

  /** Import writes no key outside the backup's five. */
  lemma ImportKeepsOther(s: Storage, data: Json, k: string)
    requires k !in BackupKeys
    ensures k in Import(s, data) <==> k in s
    ensures k in s ==> Import(s, data)[k] == s[k]
  {
    var s1 := WriteIfTruthy(s, DiariesKey, Field(data, "diaries"));
    var s2 := WriteIfTruthy(s1, PersonasKey, Field(data, "personas"));
    var s3 := WriteIfTruthy(s2, ConfigsKey, Field(data, "apiConfigs"));
    var s4 := WriteIfTruthy(s3, PersonaIdKey, Setting(data, "currentPersonaId"));
    assert Import(s, data) == WriteIfTruthy(s4, ConfigIdKey, Setting(data, "currentApiConfigId"));
  }

  /** Under one of the five keys, import leaves the backup's value when truthy and the stored one otherwise. */
  lemma ImportAtBackupKey(s: Storage, data: Json, k: string)
    requires k in BackupKeys
    ensures k in Import(s, data) <==> ImportedAt(s, data, k).Some?
    ensures k in Import(s, data) ==> Import(s, data)[k] == ImportedAt(s, data, k).value
  {
    BackupKeysDistinct();
    if k == DiariesKey {
      ImportAtDiaries(s, data);
    } else if k == PersonasKey {
      ImportAtPersonas(s, data);
    } else if k == ConfigsKey {
      ImportAtConfigs(s, data);
    } else if k == PersonaIdKey {
      ImportAtPersonaId(s, data);
    } else {
      ImportAtConfigId(s, data);
    }
  }

  /** Import under the key of the diaries. */
  lemma ImportAtDiaries(s: Storage, data: Json)
    ensures var k := DiariesKey;
            (k in Import(s, data) <==> ImportedAt(s, data, k).Some?)
            && (k in Import(s, data) ==> Import(s, data)[k] == ImportedAt(s, data, k).value)
  {
    BackupKeysDistinct();
    var k := DiariesKey;
    var s1 := WriteIfTruthy(s, DiariesKey, Field(data, "diaries"));
    var s2 := WriteIfTruthy(s1, PersonasKey, Field(data, "personas"));
    var s3 := WriteIfTruthy(s2, ConfigsKey, Field(data, "apiConfigs"));
    var s4 := WriteIfTruthy(s3, PersonaIdKey, Setting(data, "currentPersonaId"));
    var s5 := WriteIfTruthy(s4, ConfigIdKey, Setting(data, "currentApiConfigId"));
    assert s5 == Import(s, data);
    assert k in s5 <==> k in s1;
  }

  /** Import under the key of the personas. */
  lemma ImportAtPersonas(s: Storage, data: Json)
    ensures var k := PersonasKey;
            (k in Import(s, data) <==> ImportedAt(s, data, k).Some?)
            && (k in Import(s, data) ==> Import(s, data)[k] == ImportedAt(s, data, k).value)
  {
    BackupKeysDistinct();
    var k := PersonasKey;
    var s1 := WriteIfTruthy(s, DiariesKey, Field(data, "diaries"));
    var s2 := WriteIfTruthy(s1, PersonasKey, Field(data, "personas"));
    var s3 := WriteIfTruthy(s2, ConfigsKey, Field(data, "apiConfigs"));
    var s4 := WriteIfTruthy(s3, PersonaIdKey, Setting(data, "currentPersonaId"));
    var s5 := WriteIfTruthy(s4, ConfigIdKey, Setting(data, "currentApiConfigId"));
    assert s5 == Import(s, data);
    assert k in s5 <==> k in s2;
  }

  /** Import under the key of the connections. */
  lemma ImportAtConfigs(s: Storage, data: Json)
    ensures var k := ConfigsKey;
            (k in Import(s, data) <==> ImportedAt(s, data, k).Some?)
            && (k in Import(s, data) ==> Import(s, data)[k] == ImportedAt(s, data, k).value)
  {
    BackupKeysDistinct();
    var k := ConfigsKey;
    var s1 := WriteIfTruthy(s, DiariesKey, Field(data, "diaries"));
    var s2 := WriteIfTruthy(s1, PersonasKey, Field(data, "personas"));
    var s3 := WriteIfTruthy(s2, ConfigsKey, Field(data, "apiConfigs"));
    var s4 := WriteIfTruthy(s3, PersonaIdKey, Setting(data, "currentPersonaId"));
    var s5 := WriteIfTruthy(s4, ConfigIdKey, Setting(data, "currentApiConfigId"));
    assert s5 == Import(s, data);
    assert k in s5 <==> k in s3;
  }

  /** Import under the key of the selected persona. */
  lemma ImportAtPersonaId(s: Storage, data: Json)
    ensures var k := PersonaIdKey;
            (k in Import(s, data) <==> ImportedAt(s, data, k).Some?)
            && (k in Import(s, data) ==> Import(s, data)[k] == ImportedAt(s, data, k).value)
  {
    BackupKeysDistinct();
    var k := PersonaIdKey;
    var s1 := WriteIfTruthy(s, DiariesKey, Field(data, "diaries"));
    var s2 := WriteIfTruthy(s1, PersonasKey, Field(data, "personas"));
    var s3 := WriteIfTruthy(s2, ConfigsKey, Field(data, "apiConfigs"));
    var s4 := WriteIfTruthy(s3, PersonaIdKey, Setting(data, "currentPersonaId"));
    var s5 := WriteIfTruthy(s4, ConfigIdKey, Setting(data, "currentApiConfigId"));
    assert s5 == Import(s, data);
    assert k in s5 <==> k in s4;
  }

  /** Import under the key of the selected connection. */
  lemma ImportAtConfigId(s: Storage, data: Json)
    ensures var k := ConfigIdKey;
            (k in Import(s, data) <==> ImportedAt(s, data, k).Some?)
            && (k in Import(s, data) ==> Import(s, data)[k] == ImportedAt(s, data, k).value)
  {
    BackupKeysDistinct();
    var k := ConfigIdKey;
    var s1 := WriteIfTruthy(s, DiariesKey, Field(data, "diaries"));
    var s2 := WriteIfTruthy(s1, PersonasKey, Field(data, "personas"));
    var s3 := WriteIfTruthy(s2, ConfigsKey, Field(data, "apiConfigs"));
    var s4 := WriteIfTruthy(s3, PersonaIdKey, Setting(data, "currentPersonaId"));
    var s5 := WriteIfTruthy(s4, ConfigIdKey, Setting(data, "currentApiConfigId"));
    assert s5 == Import(s, data);
  }

  /** Import writes exactly the backup keys the backup holds a truthy value for, and leaves every other stored key as it was. */
  lemma ImportWritesTruthyKeys(s: Storage, data: Json)
    ensures forall k :: (k in Import(s, data) <==> ImportedAt(s, data, k).Some?)
    ensures forall k :: k in Import(s, data) ==> Import(s, data)[k] == ImportedAt(s, data, k).value
  {
    forall k ensures (k in Import(s, data) <==> ImportedAt(s, data, k).Some?) && (k in Import(s, data) ==> Import(s, data)[k] == ImportedAt(s, data, k).value) {
      ImportAt(s, data, k);
    }
  }

  /**
   Exporting one storage and importing the backup into another restores the
   three lists and both selected ids wherever the exported storage held a
   truthy value; a missing list arrives as an empty one.
   */
  lemma ExportImportRestores(source: Storage, target: Storage)
    ensures forall k :: k in {DiariesKey, PersonasKey, ConfigsKey} && k in source && Truthy(source[k]) ==>
              k in Import(target, Export(source)) && Import(target, Export(source))[k] == source[k]
    ensures forall k :: k in {DiariesKey, PersonasKey, ConfigsKey} && k !in source ==>
              k in Import(target, Export(source)) && Import(target, Export(source))[k] == JArr([])
    ensures forall k :: k in {PersonaIdKey, ConfigIdKey} && k in source && Truthy(source[k]) ==>
              k in Import(target, Export(source)) && Import(target, Export(source))[k] == source[k]
    ensures forall k :: k !in BackupKeys && k in target ==>
              k in Import(target, Export(source)) && Import(target, Export(source))[k] == target[k]
  {
    var backup := Export(source);
    ImportWritesTruthyKeys(target, backup);
    assert Truthy(JArr([]));
    assert BackupValue(backup, DiariesKey) == Some(StoredList(source, DiariesKey));
    assert BackupValue(backup, PersonasKey) == Some(StoredList(source, PersonasKey));
    assert BackupValue(backup, ConfigsKey) == Some(StoredList(source, ConfigsKey));
    assert BackupValue(backup, PersonaIdKey) == Some(StoredValue(source, PersonaIdKey));
    assert BackupValue(backup, ConfigIdKey) == Some(StoredValue(source, ConfigIdKey));
  }
}
