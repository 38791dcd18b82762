/** The `site_settings` key/value table and the settings service. The
    `value` column may hold NULL, written `None`. */
module Settings {
  import opened Wrappers

  const SITE_TITLE: string := "site_title"
  const META_DESCRIPTION: string := "meta_description"

  /** `row.value || ''` */
  function ValueOrEmpty(v: Option<string>): string {
    match v
    case None => ""
    case Some(s) => s
  }

  /** What `getAllSettings` returns: the two defaults, overlaid with every
      stored row. */
  function AllSettings(rows: map<string, Option<string>>): (s: map<string, string>)
    ensures s.Keys == rows.Keys + {SITE_TITLE, META_DESCRIPTION}
  {
    map k | k in rows.Keys + {SITE_TITLE, META_DESCRIPTION} :: if k in rows then ValueOrEmpty(rows[k]) else ""
  }

  /** The settings always hold `site_title` and `meta_description`, empty
      unless stored; every stored key is returned with its value, a NULL
      one as the empty string. */
  lemma AllSettingsReads(rows: map<string, Option<string>>, k: string)
    ensures SITE_TITLE in AllSettings(rows) && META_DESCRIPTION in AllSettings(rows)
    ensures k in rows ==> AllSettings(rows)[k] == ValueOrEmpty(rows[k])
    ensures k !in rows && k in AllSettings(rows) ==> AllSettings(rows)[k] == "" && (k == SITE_TITLE || k == META_DESCRIPTION)
    ensures k in rows && rows[k] == None ==> AllSettings(rows)[k] == ""
  {
  }

  /** What `getSetting(key)` returns: the value, or null when the key is
      missing or its value is NULL or empty. */
  function GetSetting(rows: map<string, Option<string>>, key: string): (r: Option<string>)
    ensures r.Some? <==> key in rows && rows[key].Some? && rows[key].value != ""
    ensures r.Some? ==> r.value == rows[key].value
  {
    if key in rows && rows[key].Some? && rows[key].value != "" then rows[key] else None
  }

  /** One value of the object handed to `updateSettings`: `undefined` is
      skipped, `null` is stored as NULL. */
  datatype PatchValue = Undefined | Null | Str(s: string)

  function Stored(v: PatchValue): Option<string> {
    match v
    case Undefined => None
    case Null => None
    case Str(s) => Some(s)
  }

  /** The table after the upserts of `updateSettings`, in entry order. */
  function ApplyPatch(rows: map<string, Option<string>>, patch: seq<(string, PatchValue)>): map<string, Option<string>>
    decreases |patch|
  {
    if |patch| == 0 then rows
    else
      var (k, v) := patch[0];
      ApplyPatch(if v.Undefined? then rows else rows[k := Stored(v)], patch[1..])
  }

  /** A key that no entry writes keeps its row, or its absence. */
  lemma {:induction false} ApplyPatchUntouched(rows: map<string, Option<string>>, patch: seq<(string, PatchValue)>, k: string)
    requires forall i :: 0 <= i < |patch| && patch[i].0 == k ==> patch[i].1.Undefined?
    ensures k in ApplyPatch(rows, patch) <==> k in rows
    ensures k in rows ==> ApplyPatch(rows, patch)[k] == rows[k]
    decreases |patch|
  {
    if |patch| > 0 {
      var (k0, v0) := patch[0];
      var next := if v0.Undefined? then rows else rows[k0 := Stored(v0)];
      forall j | 0 <= j < |patch[1..]| && patch[1..][j].0 == k
        ensures patch[1..][j].1.Undefined?
      {
        assert patch[1..][j] == patch[j + 1];
      }
      ApplyPatchUntouched(next, patch[1..], k);
    }
  }

  /** The last defined entry for a key decides its new value. */
  lemma {:induction false} ApplyPatchLastWrite(rows: map<string, Option<string>>, patch: seq<(string, PatchValue)>, i: int)
    requires 0 <= i < |patch| && !patch[i].1.Undefined?
    requires forall j :: i < j < |patch| && patch[j].0 == patch[i].0 ==> patch[j].1.Undefined?
    ensures patch[i].0 in ApplyPatch(rows, patch)
    ensures ApplyPatch(rows, patch)[patch[i].0] == Stored(patch[i].1)
    decreases |patch|
  {
    var (k0, v0) := patch[0];
    var next := if v0.Undefined? then rows else rows[k0 := Stored(v0)];
    var k := patch[i].0;
    forall j | i - 1 < j < |patch[1..]| && patch[1..][j].0 == k
      ensures patch[1..][j].1.Undefined?
    {
      assert patch[1..][j] == patch[j + 1];
    }
    if i == 0 {
      ApplyPatchUntouched(next, patch[1..], k);
    } else {
      assert patch[1..][i - 1] == patch[i];
      ApplyPatchLastWrite(next, patch[1..], i - 1);
    }
  }

  /** The `site_settings` table. */
  class SettingsTable {
    var rows: map<string, Option<string>>

    constructor (rows: map<string, Option<string>>)
      ensures this.rows == rows
    {
      this.rows := rows;
    }

    /** `getAllSettings`: start from the defaults and let each row override
        its key. */
    method GetAllSettings() returns (settings: map<string, string>)
      ensures settings == AllSettings(rows)
    {
      settings := map[SITE_TITLE := "", META_DESCRIPTION := ""];
      var pending := rows.Keys;
      while pending != {}
        invariant pending <= rows.Keys
        invariant forall k :: k in settings <==> k in {SITE_TITLE, META_DESCRIPTION} || (k in rows && k !in pending)
        invariant forall k :: k in settings ==>
                    settings[k] == if k in rows && k !in pending then ValueOrEmpty(rows[k]) else ""
        decreases |pending|
      {
        var k :| k in pending;
        settings := settings[k := ValueOrEmpty(rows[k])];
        pending := pending - {k};
      }
    }

    /** `updateSetting`: insert the row, or replace its value. */
    method UpdateSetting(key: string, value: Option<string>)
      modifies this
      ensures rows == old(rows)[key := value]
    {
      rows := rows[key := value];
    }

    /** `updateSettings`: upsert every entry that is not `undefined`, in
        order, then read all settings back. */
    method UpdateSettings(patch: seq<(string, PatchValue)>) returns (settings: map<string, string>)
      modifies this
      ensures rows == ApplyPatch(old(rows), patch)
      ensures settings == AllSettings(rows)
    {
      var i := 0;
      while i < |patch|
        invariant 0 <= i <= |patch|
        invariant ApplyPatch(rows, patch[i..]) == ApplyPatch(old(rows), patch)
      {
        var (k, v) := patch[i];
        assert patch[i..][1..] == patch[i + 1..];
        if !v.Undefined? {
          UpdateSetting(k, Stored(v));
        }
        i := i + 1;
      }
      settings := GetAllSettings();
    }
  }

  /** An upsert changes the read-back settings at its key only. */
  lemma UpsertReadsBack(rows: map<string, Option<string>>, key: string, value: string)
    ensures AllSettings(rows[key := Some(value)]) == AllSettings(rows)[key := value]
    ensures GetSetting(rows[key := Some(value)], key) == if value == "" then None else Some(value)
  {
  }

  /** After `updateSettings` with distinct keys, a `Str` entry reads back
      as written and a `null` entry as the empty string. */
  lemma UpdateSettingsReadsBack(rows: map<string, Option<string>>, patch: seq<(string, PatchValue)>, i: int)
    requires forall i, j :: 0 <= i < j < |patch| ==> patch[i].0 != patch[j].0
    requires 0 <= i < |patch| && !patch[i].1.Undefined?
    ensures patch[i].0 in AllSettings(ApplyPatch(rows, patch))
    ensures patch[i].1.Str? ==> AllSettings(ApplyPatch(rows, patch))[patch[i].0] == patch[i].1.s
    ensures patch[i].1.Null? ==> AllSettings(ApplyPatch(rows, patch))[patch[i].0] == ""
  {
    ApplyPatchLastWrite(rows, patch, i);
  }

  /** A key that `updateSettings` does not write (absent, or `undefined`)
      reads back as before. */
  lemma UpdateSettingsKeepsOthers(rows: map<string, Option<string>>, patch: seq<(string, PatchValue)>, k: string)
    requires forall i :: 0 <= i < |patch| && patch[i].0 == k ==> patch[i].1.Undefined?
    ensures k in AllSettings(ApplyPatch(rows, patch)) <==> k in AllSettings(rows)
    ensures k in AllSettings(rows) ==> AllSettings(ApplyPatch(rows, patch))[k] == AllSettings(rows)[k]
  {
    ApplyPatchUntouched(rows, patch, k);
  }
}
