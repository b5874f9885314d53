/** The local configuration store: one stored array of sheet configurations
    under a single storage key, rewritten whole by every mutation. Storage
    is a value here; the fresh id `addConfig` draws is a parameter. */
module ConfigStore {
  import opened Base
  import opened Types

  /** What the storage key holds: nothing (or an empty string), text that
      fails to parse, or a parsed array. */
  datatype Stored = Missing | Unparseable | Parsed(configs: seq<SheetsConfig>)

  /** `getAllConfigs()`: the parsed array, or none at all when the key is
      missing or its text does not parse. */
  function GetAllConfigs(st: Stored): (r: seq<SheetsConfig>)
    ensures st.Parsed? ==> r == st.configs
    ensures !st.Parsed? ==> r == []
  {
    if st.Parsed? then st.configs else []
  }

  /** `configs.map(c => c.id)`: the ids, one per configuration, in list
      order. */
  function Ids(configs: seq<SheetsConfig>): (ids: seq<string>)
    ensures |ids| == |configs|
    ensures forall i :: 0 <= i < |configs| ==> ids[i] == configs[i].id
  {
    seq(|configs|, i requires 0 <= i < |configs| => configs[i].id)
  }

  predicate HasId(configs: seq<SheetsConfig>, id: string) {
    exists i :: 0 <= i < |configs| && configs[i].id == id
  }

  /** `findIndex(c => c.id === id)`, with -1 for no match. */
  function FindIndex(configs: seq<SheetsConfig>, id: string): (k: int)
    ensures -1 <= k < |configs|
    ensures k == -1 <==> !HasId(configs, id)
    ensures k >= 0 ==> configs[k].id == id && forall j :: 0 <= j < k ==> configs[j].id != id
  {
    if configs == [] then -1
    else if configs[0].id == id then 0
    else
      var k := FindIndex(configs[1..], id);
      if k == -1 then
        assert forall i :: 1 <= i < |configs| ==> configs[i].id == configs[1..][i - 1].id;
        -1
      else k + 1
  }

  /** `getConfigById(id)`: the first stored configuration with that id. */
  function GetConfigById(st: Stored, id: string): (r: Option<SheetsConfig>)
    ensures r.None? <==> !HasId(GetAllConfigs(st), id)
    ensures r.Some? ==> (
      && r.value.id == id
      && exists k :: 0 <= k < |GetAllConfigs(st)| && GetAllConfigs(st)[k] == r.value &&
           forall j :: 0 <= j < k ==> GetAllConfigs(st)[j].id != id)
  {
    var configs := GetAllConfigs(st);
    var k := FindIndex(configs, id);
    if k == -1 then None else Some(configs[k])
  }

  /** `addConfig(draft)`: the draft with the fresh id appended at the end of
      the stored array; earlier entries are untouched. */
  function AddConfig(st: Stored, draft: ConfigDraft, freshId: string): (r: (Stored, SheetsConfig))
    ensures r.1 == WithId(draft, freshId)
    ensures r.0 == Parsed(GetAllConfigs(st) + [r.1])
  {
    var created := WithId(draft, freshId);
    (Parsed(GetAllConfigs(st) + [created]), created)
  }

  /** With an id no stored entry uses, the added configuration is then found
      by that id. */
  lemma AddThenGet(st: Stored, draft: ConfigDraft, freshId: string)
    requires !HasId(GetAllConfigs(st), freshId)
    ensures GetConfigById(AddConfig(st, draft, freshId).0, freshId) == Some(WithId(draft, freshId))
  {
    var configs := GetAllConfigs(st);
    var after := configs + [WithId(draft, freshId)];
    assert after[|configs|].id == freshId;
    assert forall j :: 0 <= j < |configs| ==> after[j] == configs[j];
  }

  /** `updateConfig(config)`: an absent id returns false and writes nothing;
      otherwise the first entry with that id is replaced in place and the
      rest of the array, and its length, stay as they were. */
  function UpdateConfig(st: Stored, config: SheetsConfig): (r: (Stored, bool))
    ensures !HasId(GetAllConfigs(st), config.id) ==> r == (st, false)
    ensures HasId(GetAllConfigs(st), config.id) ==> (
      && r.1 && r.0.Parsed?
      && var before := GetAllConfigs(st);
         var after := r.0.configs;
         && |after| == |before|
         && exists k :: 0 <= k < |before| && before[k].id == config.id && after[k] == config &&
              (forall j :: 0 <= j < k ==> before[j].id != config.id) &&
              (forall j :: 0 <= j < |before| && j != k ==> after[j] == before[j]))
  {
    var configs := GetAllConfigs(st);
    var k := FindIndex(configs, config.id);
    if k == -1 then (st, false) else (Parsed(configs[k := config]), true)
  }

  /** Every entry whose id differs from `id`, in order. */
  function WithoutId(configs: seq<SheetsConfig>, id: string): (r: seq<SheetsConfig>)
    ensures |r| <= |configs|
    ensures forall i :: 0 <= i < |r| ==> r[i].id != id && r[i] in configs
    ensures |r| == |configs| <==> !HasId(configs, id)
    ensures !HasId(configs, id) ==> r == configs
    ensures IsSubsequence(r, configs)
  {
    if configs == [] then []
    else
      var rest := WithoutId(configs[1..], id);
      HasIdCons(configs, id);
      if configs[0].id == id then
        SubsequenceDropHead(rest, configs);
        rest
      else
        [configs[0]] + rest
  }

  lemma HasIdCons(configs: seq<SheetsConfig>, id: string)
    requires configs != []
    ensures HasId(configs, id) <==> configs[0].id == id || HasId(configs[1..], id)
  {
    if HasId(configs[1..], id) {
      var i :| 0 <= i < |configs[1..]| && configs[1..][i].id == id;
      assert configs[i + 1].id == id;
    }
    if HasId(configs, id) && configs[0].id != id {
      var i :| 0 <= i < |configs| && configs[i].id == id;
      assert configs[1..][i - 1].id == id;
    }
  }

  lemma SubsequenceDropHead<T>(a: seq<T>, b: seq<T>)
    requires b != [] && IsSubsequence(a, b[1..])
    ensures IsSubsequence(a, b)
  {
  }

  /** Filtering by id keeps every entry with another id. */
  lemma WithoutIdKeepsOthers(configs: seq<SheetsConfig>, id: string, c: SheetsConfig)
    requires c in configs && c.id != id
    ensures c in WithoutId(configs, id)
  {
    if configs[0] != c {
      WithoutIdKeepsOthers(configs[1..], id, c);
    }
  }

  /** `deleteConfig(id)`: removes every entry with that id, keeps the rest in
      order, and reports whether anything was removed; with nothing to
      remove it returns false and writes nothing. */
  function DeleteConfig(st: Stored, id: string): (r: (Stored, bool))
    ensures !HasId(GetAllConfigs(st), id) ==> r == (st, false)
    ensures HasId(GetAllConfigs(st), id) ==> r.1 && r.0 == Parsed(WithoutId(GetAllConfigs(st), id))
    ensures r.0.Parsed? ==> IsSubsequence(r.0.configs, GetAllConfigs(st))
  {
    var configs := GetAllConfigs(st);
    var filtered := WithoutId(configs, id);
    if |filtered| == |configs| then (st, false) else (Parsed(filtered), true)
  }

  /** After a delete, the id is found no more; every other entry still is. */
  lemma DeleteThenGet(st: Stored, id: string)
    ensures GetConfigById(DeleteConfig(st, id).0, id).None?
    ensures forall c :: c in GetAllConfigs(st) && c.id != id ==>
      c in GetAllConfigs(DeleteConfig(st, id).0)
  {
    forall c | c in GetAllConfigs(st) && c.id != id
      ensures c in GetAllConfigs(DeleteConfig(st, id).0)
    {
      if HasId(GetAllConfigs(st), id) {
        WithoutIdKeepsOthers(GetAllConfigs(st), id, c);
      }
    }
  }
}
