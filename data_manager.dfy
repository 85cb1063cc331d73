/**
 * `DataManager`: export, import and reset of the user data kept in local
 * storage under `SAE_userData`. The JSON text goes through the same
 * `Stringify`/`Parse` pair as the rest of the model; the clock is a parameter
 * and the file picker, download link and dialogs are left out.
 */
module DataManager {
  import opened Wrappers
  import opened Json
  import Assoc
  import Storage
  import Ledger

  const UserDataKey := "SAE_userData"

  /** What `exportUserData` does with the stored entry. */
  datatype ExportOutcome =
    | NothingToExport
      // `JSON.parse` of the stored entry throws: the call ends with that exception
    | Throws
    | Exported(envelope: Json, fileName: string, contents: string)

  /** The exported object: the export time, then the parsed user data. */
  function Envelope(exportDate: string, userData: Json): (j: Json)
    ensures Member(j, "userData") == Some(userData)
    ensures Member(j, "exportDate") == Some(JStr(exportDate))
  {
    var fields := [("exportDate", JStr(exportDate)), ("userData", userData)];
    assert fields[1..] == [("userData", userData)] && fields[1..][1..] == [];
    assert "userData"[0] != "exportDate"[0];
    assert Assoc.Lookup(fields[1..], "exportDate") == None;
    assert Assoc.Lookup(fields[1..], "userData") == Some(userData);
    JObj(fields)
  }

  /** `iso.split("T")[0]`: everything before the first `T`, or all of `iso` when it has none. */
  function DatePart(iso: string): (r: string)
    ensures |r| <= |iso| && r == iso[..|r|]
    ensures 'T' !in r
    ensures |r| < |iso| ==> iso[|r|] == 'T'
  {
    if iso == [] || iso[0] == 'T' then []
    else [iso[0]] + DatePart(iso[1..])
  }

  /** The name given to the downloaded file. */
  function FileName(iso: string): string {
    "competences_" + DatePart(iso) + ".json"
  }

  /** The entry `exportUserData` refuses to export: absent, empty or the empty object. */
  predicate NothingStored(stored: Option<string>) {
    stored.None? || stored.value == "" || stored.value == "{}"
  }

  /**
   * `exportUserData`: the stored user data wrapped with the export time and
   * written out as JSON, under a name made from the date. `exportNow` and
   * `nameNow` are the two readings of the clock.
   */
  method ExportUserData(store: Storage.LocalStorage, exportNow: string, nameNow: string)
    returns (r: ExportOutcome)
    ensures r.NothingToExport? <==> NothingStored(store.GetItem(UserDataKey))
    ensures r.Throws? <==>
              !NothingStored(store.GetItem(UserDataKey)) && Parse(store.entries[UserDataKey]).None?
    ensures r.Exported? ==>
              && Parse(store.entries[UserDataKey]).Some?
              && r.envelope == Envelope(exportNow, Parse(store.entries[UserDataKey]).value)
              && r.contents == Stringify(r.envelope)
              && r.fileName == FileName(nameNow)
  {
    var userData := store.GetItem(UserDataKey);
    if userData.None? || userData.value == "" || userData.value == "{}" {
      return NothingToExport;
    }
    var parsed := Parse(userData.value);
    if parsed.None? {
      return Throws;
    }
    var envelope := Envelope(exportNow, parsed.value);
    var dateStr := DatePart(nameNow);
    return Exported(envelope, "competences_" + dateStr + ".json", Stringify(envelope));
  }

  /**
   * The user data `importUserData` accepts from a file's text: it must parse,
   * and its `userData` member must be present and truthy.
   */
  function ImportedUserData(text: string): (r: Option<Json>)
    ensures r.Some? ==> Parse(text).Some? && Member(Parse(text).value, "userData") == r && Truthy(r.value)
    ensures (Parse(text).Some? && Member(Parse(text).value, "userData").Some?
             && Truthy(Member(Parse(text).value, "userData").value)) ==> r.Some?
  {
    match Parse(text)
    case None => None
    case Some(j) =>
      match Member(j, "userData")
      case None => None
      case Some(u) => if Truthy(u) then Some(u) else None
  }

  /**
   * `importUserData` with the file's text (None when reading it fails):
   * on success `SAE_userData` is replaced by the imported user data.
   */
  method ImportUserData(store: Storage.LocalStorage, file: Option<string>) returns (ok: bool)
    modifies store
    ensures ok <==> file.Some? && ImportedUserData(file.value).Some?
    ensures ok ==> store.entries == old(store.entries)[UserDataKey := Stringify(ImportedUserData(file.value).value)]
    ensures !ok ==> store.entries == old(store.entries)
  {
    if file.None? {
      return false;
    }
    var importData := Parse(file.value);
    if importData.None? {
      return false;
    }
    var userData := Member(importData.value, "userData");
    if userData.None? || !Truthy(userData.value) {
      return false;
    }
    store.entries := store.entries[UserDataKey := Stringify(userData.value)];
    return true;
  }

  /** `resetUserData` with the user's answer to the confirmation dialog. */
  method ResetUserData(store: Storage.LocalStorage, confirmed: bool) returns (ok: bool)
    modifies store
    ensures ok == confirmed
    ensures confirmed ==> store.entries == old(store.entries) - {UserDataKey}
    ensures !confirmed ==> store.entries == old(store.entries)
  {
    if confirmed {
      store.entries := store.entries - {UserDataKey};
      return true;
    }
    return false;
  }

  // ------------------------------------------------------------- properties

  /**
   * Importing an exported file brings back the user data export read, as a
   * value, exactly when that value is truthy; the export time is ignored.
   */
  lemma ExportImportRoundTrip(stored: string, exportNow: string, userData: Json)
    requires Parse(stored) == Some(userData)
    ensures ImportedUserData(Stringify(Envelope(exportNow, userData))).Some? <==> Truthy(userData)
    ensures Truthy(userData) ==>
              Parse(Stringify(ImportedUserData(Stringify(Envelope(exportNow, userData))).value)) == Parse(stored)
  {
    RoundTrip(Envelope(exportNow, userData));
    RoundTrip(userData);
  }

  /** The stored text `"null"` is exported, but the file it gives is refused on import. */
  lemma NullUserDataDoesNotReimport(exportNow: string)
    ensures Parse("null") == Some(JNull)
    ensures ImportedUserData(Stringify(Envelope(exportNow, JNull))).None?
  {
    ValueRoundTrip(JNull, []);
    assert Stringify(JNull) + [] == "null";
    ExportImportRoundTrip("null", exportNow, JNull);
  }

  /** The date part of a timestamp is what comes before its first `T`. */
  lemma {:induction false} DatePartBeforeT(date: string, time: string)
    requires 'T' !in date
    ensures DatePart(date + ("T" + time)) == date
  {
    if date != [] {
      assert (date + ("T" + time))[1..] == date[1..] + ("T" + time);
      DatePartBeforeT(date[1..], time);
    }
  }

  /** The file name is `competences_`, the date part of the timestamp, then `.json`. */
  lemma FileNameOfIso(date: string, time: string)
    requires 'T' !in date
    ensures FileName(date + ("T" + time)) == "competences_" + date + ".json"
  {
    DatePartBeforeT(date, time);
  }

  /** None of the data manager's writes changes what `M.init` reads back. */
  lemma UserDataIsolatedFromLedger(entries: map<string, string>, text: string)
    ensures Ledger.ReadSavedLevels(entries[UserDataKey := text]) == Ledger.ReadSavedLevels(entries)
    ensures Ledger.ReadSavedLevels(entries - {UserDataKey}) == Ledger.ReadSavedLevels(entries)
  {
    var written := entries[UserDataKey := text];
    var removed := entries - {UserDataKey};
    assert Ledger.LevelsKey != UserDataKey;
    assert Ledger.LevelsKey in written <==> Ledger.LevelsKey in entries;
    assert Ledger.LevelsKey in removed <==> Ledger.LevelsKey in entries;
    if Ledger.LevelsKey in entries {
      assert written[Ledger.LevelsKey] == entries[Ledger.LevelsKey];
      assert removed[Ledger.LevelsKey] == entries[Ledger.LevelsKey];
    }
  }
}
