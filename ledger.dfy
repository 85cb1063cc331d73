/**
 * The page model `M` of the competency tree: the taxonomy of competences,
 * levels (niveaux) and ACs, the progress the user records on each AC, the
 * `SAE_levels` / `SAE_dates` snapshots kept in local storage, the lookup of an
 * AC by code, and the controller's current selection.
 */
module Ledger {
  import opened Wrappers
  import opened Text
  import opened Progress
  import Assoc
  import opened Json
  import KeyOrder
  import Storage
  import Codes

  const LevelsKey := "SAE_levels"
  const DatesKey := "SAE_dates"

  /** One AC of the taxonomy; the page updates its `level` and `dates` in place. */
  class AC {
    const code: string
    const libelle: string
    var level: Option<int>
    var dates: map<int, string>

    constructor (code: string, libelle: string)
      ensures this.code == code && this.libelle == libelle
      ensures level == None && dates == map[]
    {
      this.code := code;
      this.libelle := libelle;
      level := None;
      dates := map[];
    }

    function State(): Progress
      reads this
    {
      Progress(level, dates)
    }
  }

  datatype Niveau = Niveau(acs: seq<AC>)
  datatype Competence = Competence(id: string, niveaux: seq<Niveau>)

  /** The ACs of a list of niveaux, in visiting order. */
  function NiveauACs(niveaux: seq<Niveau>): (r: seq<AC>)
    ensures forall a :: a in r ==> exists n, i :: 0 <= n < |niveaux| && 0 <= i < |niveaux[n].acs| && niveaux[n].acs[i] == a
    decreases |niveaux|
  {
    if niveaux == [] then []
    else
      var rest := NiveauACs(niveaux[1..]);
      assert forall n :: 0 <= n < |niveaux[1..]| ==> niveaux[1..][n] == niveaux[n + 1];
      niveaux[0].acs + rest
  }

  /** The ACs of the whole taxonomy, in the order the page visits them. */
  function AllACs(data: seq<Competence>): (r: seq<AC>)
    ensures forall a :: a in r ==> exists c, n, i :: (0 <= c < |data| && 0 <= n < |data[c].niveaux|
              && 0 <= i < |data[c].niveaux[n].acs| && data[c].niveaux[n].acs[i] == a)
    decreases |data|
  {
    if data == [] then []
    else
      var rest := AllACs(data[1..]);
      assert forall c :: 0 <= c < |data[1..]| ==> data[1..][c] == data[c + 1];
      NiveauACs(data[0].niveaux) + rest
  }

  lemma {:induction false} NiveauACsAppend(a: seq<Niveau>, b: seq<Niveau>)
    ensures NiveauACs(a + b) == NiveauACs(a) + NiveauACs(b)
    decreases |a|
  {
    if a == [] {
      assert a + b == b;
    } else {
      assert (a + b)[1..] == a[1..] + b;
      NiveauACsAppend(a[1..], b);
    }
  }

  lemma NiveauACsSnoc(niveaux: seq<Niveau>, n: int)
    requires 0 <= n < |niveaux|
    ensures NiveauACs(niveaux[..n + 1]) == NiveauACs(niveaux[..n]) + niveaux[n].acs
  {
    assert niveaux[..n + 1] == niveaux[..n] + [niveaux[n]];
    NiveauACsAppend(niveaux[..n], [niveaux[n]]);
    assert NiveauACs([niveaux[n]]) == niveaux[n].acs + NiveauACs([]);
  }

  lemma {:induction false} AllACsAppend(a: seq<Competence>, b: seq<Competence>)
    ensures AllACs(a + b) == AllACs(a) + AllACs(b)
    decreases |a|
  {
    if a == [] {
      assert a + b == b;
    } else {
      assert (a + b)[1..] == a[1..] + b;
      AllACsAppend(a[1..], b);
    }
  }

  lemma AllACsSnoc(data: seq<Competence>, c: int)
    requires 0 <= c < |data|
    ensures AllACs(data[..c + 1]) == AllACs(data[..c]) + NiveauACs(data[c].niveaux)
  {
    assert data[..c + 1] == data[..c] + [data[c]];
    AllACsAppend(data[..c], [data[c]]);
    assert AllACs([data[c]]) == NiveauACs(data[c].niveaux) + AllACs([]);
  }

  lemma {:induction false} InNiveauACs(niveaux: seq<Niveau>, n: int, i: int)
    requires 0 <= n < |niveaux| && 0 <= i < |niveaux[n].acs|
    ensures niveaux[n].acs[i] in NiveauACs(niveaux)
    decreases |niveaux|
  {
    if n > 0 {
      InNiveauACs(niveaux[1..], n - 1, i);
    }
  }

  lemma {:induction false} InAllACs(data: seq<Competence>, c: int, n: int, i: int)
    requires 0 <= c < |data| && 0 <= n < |data[c].niveaux| && 0 <= i < |data[c].niveaux[n].acs|
    ensures data[c].niveaux[n].acs[i] in AllACs(data)
    decreases |data|
  {
    if c > 0 {
      InAllACs(data[1..], c - 1, n, i);
    } else {
      InNiveauACs(data[c].niveaux, n, i);
    }
  }

  // ------------------------------------------------------------ snapshots

  /** `ac.level !== undefined && ac.level > 0`: the AC appears in `SAE_levels`. */
  predicate HasLevel(ac: AC)
    reads ac
  {
    ac.level.Some? && ac.level.value > 0
  }

  /** `ac.dates` has at least one key: the AC appears in `SAE_dates`. */
  predicate HasDates(ac: AC)
    reads ac
  {
    |ac.dates| > 0
  }

  /** `M.levels` once `M.saveData` has visited the ACs `acs`, starting from `r`. */
  function LevelsFrom(r: Assoc.Assoc<int>, acs: seq<AC>): (s: Assoc.Assoc<int>)
    requires Assoc.UniqueKeys(r)
    reads acs
    ensures Assoc.UniqueKeys(s)
    decreases |acs|
  {
    if acs == [] then r
    else LevelsFrom(if HasLevel(acs[0]) then Assoc.Put(r, acs[0].code, acs[0].level.value) else r, acs[1..])
  }

  /** `M.dates` once `M.saveData` has visited the ACs `acs`, starting from `r`. */
  function DatesFrom(r: Assoc.Assoc<map<int, string>>, acs: seq<AC>): (s: Assoc.Assoc<map<int, string>>)
    requires Assoc.UniqueKeys(r)
    reads acs
    ensures Assoc.UniqueKeys(s)
    decreases |acs|
  {
    if acs == [] then r
    else DatesFrom(if HasDates(acs[0]) then Assoc.Put(r, acs[0].code, acs[0].dates) else r, acs[1..])
  }

  /** `M.levels` as `M.saveData` rebuilds it from the ACs `acs`. */
  function LevelsSnapshot(acs: seq<AC>): Assoc.Assoc<int>
    reads acs
  {
    LevelsFrom([], acs)
  }

  /** `M.dates` as `M.saveData` rebuilds it from the ACs `acs`. */
  function DatesSnapshot(acs: seq<AC>): Assoc.Assoc<map<int, string>>
    reads acs
  {
    DatesFrom([], acs)
  }

  lemma {:induction false} LevelsFromAppend(r: Assoc.Assoc<int>, a: seq<AC>, b: seq<AC>)
    requires Assoc.UniqueKeys(r)
    ensures LevelsFrom(r, a + b) == LevelsFrom(LevelsFrom(r, a), b)
    decreases |a|
  {
    if a == [] {
      assert a + b == b;
    } else {
      assert (a + b)[1..] == a[1..] + b;
      LevelsFromAppend(if HasLevel(a[0]) then Assoc.Put(r, a[0].code, a[0].level.value) else r, a[1..], b);
    }
  }

  lemma {:induction false} DatesFromAppend(r: Assoc.Assoc<map<int, string>>, a: seq<AC>, b: seq<AC>)
    requires Assoc.UniqueKeys(r)
    ensures DatesFrom(r, a + b) == DatesFrom(DatesFrom(r, a), b)
    decreases |a|
  {
    if a == [] {
      assert a + b == b;
    } else {
      assert (a + b)[1..] == a[1..] + b;
      DatesFromAppend(if HasDates(a[0]) then Assoc.Put(r, a[0].code, a[0].dates) else r, a[1..], b);
    }
  }

  /** `acs[i]` is the last AC with this code that has a positive level. */
  predicate LastLevelled(acs: seq<AC>, code: string, i: int)
    reads acs
  {
    && 0 <= i < |acs| && acs[i].code == code && HasLevel(acs[i])
    && forall j :: i < j < |acs| && acs[j].code == code ==> !HasLevel(acs[j])
  }

  /** `acs[i]` is the last AC with this code that has recorded dates. */
  predicate LastDated(acs: seq<AC>, code: string, i: int)
    reads acs
  {
    && 0 <= i < |acs| && acs[i].code == code && HasDates(acs[i])
    && forall j :: i < j < |acs| && acs[j].code == code ==> !HasDates(acs[j])
  }

  lemma {:induction false} LevelsFromKeeps(r: Assoc.Assoc<int>, acs: seq<AC>, code: string)
    requires Assoc.UniqueKeys(r)
    ensures (forall i :: 0 <= i < |acs| && acs[i].code == code ==> !HasLevel(acs[i])) ==>
              Assoc.Lookup(LevelsFrom(r, acs), code) == Assoc.Lookup(r, code)
    ensures Assoc.Lookup(r, code).Some? ==> Assoc.Lookup(LevelsFrom(r, acs), code).Some?
    ensures (exists i :: 0 <= i < |acs| && acs[i].code == code && HasLevel(acs[i])) ==>
              Assoc.Lookup(LevelsFrom(r, acs), code).Some?
    decreases |acs|
  {
    if acs != [] {
      var ac := acs[0];
      var next := if HasLevel(ac) then Assoc.Put(r, ac.code, ac.level.value) else r;
      LevelsFromKeeps(next, acs[1..], code);
      assert forall j :: 0 <= j < |acs[1..]| ==> acs[1..][j] == acs[j + 1];
    }
  }

  lemma {:induction false} LevelsFromLast(r: Assoc.Assoc<int>, acs: seq<AC>, code: string)
    requires Assoc.UniqueKeys(r)
    ensures forall i :: LastLevelled(acs, code, i) ==> Assoc.Lookup(LevelsFrom(r, acs), code) == acs[i].level
    decreases |acs|
  {
    if acs != [] {
      var ac := acs[0];
      var next := if HasLevel(ac) then Assoc.Put(r, ac.code, ac.level.value) else r;
      var rest := acs[1..];
      LevelsFromLast(next, rest, code);
      forall i | LastLevelled(acs, code, i)
        ensures Assoc.Lookup(LevelsFrom(r, acs), code) == acs[i].level
      {
        if i == 0 {
          LevelsFromKeeps(next, rest, code);
          assert forall j :: 0 <= j < |rest| && rest[j].code == code ==> !HasLevel(rest[j]) by {
            forall j | 0 <= j < |rest| && rest[j].code == code ensures !HasLevel(rest[j]) {
              assert rest[j] == acs[j + 1];
            }
          }
        } else {
          assert LastLevelled(rest, code, i - 1) by {
            forall j | i - 1 < j < |rest| && rest[j].code == code ensures !HasLevel(rest[j]) {
              assert rest[j] == acs[j + 1];
            }
          }
        }
      }
    }
  }

  lemma {:induction false} DatesFromKeeps(r: Assoc.Assoc<map<int, string>>, acs: seq<AC>, code: string)
    requires Assoc.UniqueKeys(r)
    ensures (forall i :: 0 <= i < |acs| && acs[i].code == code ==> !HasDates(acs[i])) ==>
              Assoc.Lookup(DatesFrom(r, acs), code) == Assoc.Lookup(r, code)
    ensures Assoc.Lookup(r, code).Some? ==> Assoc.Lookup(DatesFrom(r, acs), code).Some?
    ensures (exists i :: 0 <= i < |acs| && acs[i].code == code && HasDates(acs[i])) ==>
              Assoc.Lookup(DatesFrom(r, acs), code).Some?
    decreases |acs|
  {
    if acs != [] {
      var ac := acs[0];
      var next := if HasDates(ac) then Assoc.Put(r, ac.code, ac.dates) else r;
      DatesFromKeeps(next, acs[1..], code);
      assert forall j :: 0 <= j < |acs[1..]| ==> acs[1..][j] == acs[j + 1];
    }
  }

  lemma {:induction false} DatesFromLast(r: Assoc.Assoc<map<int, string>>, acs: seq<AC>, code: string)
    requires Assoc.UniqueKeys(r)
    ensures forall i :: LastDated(acs, code, i) ==> Assoc.Lookup(DatesFrom(r, acs), code) == Some(acs[i].dates)
    decreases |acs|
  {
    if acs != [] {
      var ac := acs[0];
      var next := if HasDates(ac) then Assoc.Put(r, ac.code, ac.dates) else r;
      var rest := acs[1..];
      DatesFromLast(next, rest, code);
      forall i | LastDated(acs, code, i)
        ensures Assoc.Lookup(DatesFrom(r, acs), code) == Some(acs[i].dates)
      {
        if i == 0 {
          DatesFromKeeps(next, rest, code);
          assert forall j :: 0 <= j < |rest| && rest[j].code == code ==> !HasDates(rest[j]) by {
            forall j | 0 <= j < |rest| && rest[j].code == code ensures !HasDates(rest[j]) {
              assert rest[j] == acs[j + 1];
            }
          }
        } else {
          assert LastDated(rest, code, i - 1) by {
            forall j | i - 1 < j < |rest| && rest[j].code == code ensures !HasDates(rest[j]) {
              assert rest[j] == acs[j + 1];
            }
          }
        }
      }
    }
  }

  /**
   * The levels snapshot binds exactly the codes of ACs with a positive level,
   * each to the level of the last such AC.
   */
  lemma LevelsSnapshotSpec(acs: seq<AC>, code: string)
    ensures Assoc.Lookup(LevelsSnapshot(acs), code).None? <==>
              forall i :: 0 <= i < |acs| && acs[i].code == code ==> !HasLevel(acs[i])
    ensures forall i :: LastLevelled(acs, code, i) ==>
              Assoc.Lookup(LevelsSnapshot(acs), code) == acs[i].level
  {
    LevelsFromKeeps([], acs, code);
    LevelsFromLast([], acs, code);
  }

  /**
   * The dates snapshot binds exactly the codes of ACs with recorded dates,
   * each to the dates of the last such AC.
   */
  lemma DatesSnapshotSpec(acs: seq<AC>, code: string)
    ensures Assoc.Lookup(DatesSnapshot(acs), code).None? <==>
              forall i :: 0 <= i < |acs| && acs[i].code == code ==> !HasDates(acs[i])
    ensures forall i :: LastDated(acs, code, i) ==>
              Assoc.Lookup(DatesSnapshot(acs), code) == Some(acs[i].dates)
  {
    DatesFromKeeps([], acs, code);
    DatesFromLast([], acs, code);
  }

  // ------------------------------------------------------ stored JSON forms

  /** `M.levels` as a JSON object: code to level. */
  function LevelsJson(levels: Assoc.Assoc<int>): Json {
    JObj(seq(|levels|, i requires 0 <= i < |levels| => (levels[i].0, JNum(levels[i].1))))
  }

  /** One AC's `dates` as a JSON object; integer-like keys are written in ascending order. */
  function DatesJson(dates: map<int, string>): Json {
    var keys := KeyOrder.Ascending(dates.Keys);
    JObj(seq(|keys|, i requires 0 <= i < |keys| => (IntToString(keys[i]), JStr(dates[keys[i]]))))
  }

  /** `M.dates` as a JSON object: code to that AC's dates. */
  function DatesSnapshotJson(dates: Assoc.Assoc<map<int, string>>): Json {
    JObj(seq(|dates|, i requires 0 <= i < |dates| => (dates[i].0, DatesJson(dates[i].1))))
  }

  /** Local storage once `M.saveData` has written both snapshots. */
  function StoredSnapshots(entries: map<string, string>, levels: Assoc.Assoc<int>,
                           dates: Assoc.Assoc<map<int, string>>): map<string, string>
  {
    entries[LevelsKey := Stringify(LevelsJson(levels))][DatesKey := Stringify(DatesSnapshotJson(dates))]
  }

  /** The numeric members of a parsed object, assigned in order (a later duplicate wins). */
  function LevelsFromFields(fields: seq<(string, Json)>): (r: Assoc.Assoc<int>)
    ensures Assoc.UniqueKeys(r)
    decreases |fields|
  {
    if fields == [] then []
    else
      var r := LevelsFromFields(fields[..|fields| - 1]);
      var (k, v) := fields[|fields| - 1];
      if v.JNum? then Assoc.Put(r, k, v.n) else r
  }

  /** The saved levels as `M.init` uses them: only an object has members. */
  function LevelsFromJson(j: Json): (r: Assoc.Assoc<int>)
    ensures Assoc.UniqueKeys(r)
  {
    if j.JObj? then LevelsFromFields(j.fields) else []
  }

  /** What `M.init` finds under `SAE_levels`. */
  datatype SavedLevels = NothingSaved | Unreadable | Saved(levels: Assoc.Assoc<int>)

  function ReadSavedLevels(entries: map<string, string>): SavedLevels {
    if LevelsKey !in entries || entries[LevelsKey] == "" then NothingSaved
    else
      match Parse(entries[LevelsKey])
      case None => Unreadable
      case Some(j) => Saved(LevelsFromJson(j))
  }

  /** The written levels object ends with the member of the last binding. */
  lemma LevelsJsonSnoc(levels: Assoc.Assoc<int>)
    requires levels != []
    ensures var last := |levels| - 1;
      LevelsJson(levels).fields == LevelsJson(levels[..last]).fields + [(levels[last].0, JNum(levels[last].1))]
  {
  }

  /** Reading the written levels object gives back the levels snapshot. */
  lemma {:induction false} LevelsJsonRoundTrip(levels: Assoc.Assoc<int>)
    requires Assoc.UniqueKeys(levels)
    ensures LevelsFromJson(LevelsJson(levels)) == levels
    decreases |levels|
  {
    if levels != [] {
      var last := |levels| - 1;
      var init := levels[..last];
      var (k, v) := levels[last];
      var fields := LevelsJson(levels).fields;
      Assoc.UniqueKeysDropLast(levels);
      LevelsJsonRoundTrip(init);
      LevelsJsonSnoc(levels);
      assert fields[..last] == LevelsJson(init).fields && fields[last] == (k, JNum(v));
      calc {
        LevelsFromFields(fields);
        Assoc.Put(LevelsFromFields(fields[..last]), k, v);
        { Assoc.PutNew(init, k, v); }
        init + [(k, v)];
        { assert levels == init + [levels[last]]; }
        levels;
      }
    }
  }

  /** What `M.saveData` writes under `SAE_levels` is what `M.init` reads back. */
  lemma SavedLevelsRoundTrip(entries: map<string, string>, levels: Assoc.Assoc<int>,
                             dates: Assoc.Assoc<map<int, string>>)
    requires Assoc.UniqueKeys(levels)
    ensures ReadSavedLevels(StoredSnapshots(entries, levels, dates)) == Saved(levels)
  {
    StringifyStart(LevelsJson(levels));
    RoundTrip(LevelsJson(levels));
    LevelsJsonRoundTrip(levels);
  }

  /** The level `M.init` gives an AC: the saved one if its code was saved, otherwise its own. */
  function Overlay(saved: Assoc.Assoc<int>, code: string, level: Option<int>): Option<int> {
    match Assoc.Lookup(saved, code)
    case Some(l) => Some(l)
    case None => level
  }

  // ------------------------------------------------------------- lookups

  /** Position (c, n, i) of the taxonomy holds an AC with this code. */
  predicate CodeAt(data: seq<Competence>, code: string, c: int, n: int, i: int) {
    && 0 <= c < |data| && 0 <= n < |data[c].niveaux| && 0 <= i < |data[c].niveaux[n].acs|
    && data[c].niveaux[n].acs[i].code == code
  }

  /** Position (c1, n1, i1) is visited before (c2, n2, i2). */
  predicate Before(c1: int, n1: int, i1: int, c2: int, n2: int, i2: int) {
    c1 < c2 || (c1 == c2 && (n1 < n2 || (n1 == n2 && i1 < i2)))
  }

  /** Position (c, n, i) is the first one visited that holds this code. */
  ghost predicate FirstCodeAt(data: seq<Competence>, code: string, c: int, n: int, i: int) {
    && CodeAt(data, code, c, n, i)
    && forall c', n', i' :: CodeAt(data, code, c', n', i') ==> !Before(c', n', i', c, n, i)
  }

  /** The result of `M.findACByCode`: the AC, its competence's key and its niveau's index. */
  datatype Found = Found(ac: AC, competenceId: string, niveauIndex: nat)

  /** `f` describes the first AC with this code in the taxonomy. */
  ghost predicate IsFirstFound(data: seq<Competence>, code: string, f: Found) {
    exists c, i :: FirstCodeAt(data, code, c, f.niveauIndex, i)
      && f.ac == data[c].niveaux[f.niveauIndex].acs[i]
      && f.competenceId == data[c].id
  }

  class Page {
    var data: seq<Competence>
    var levels: Assoc.Assoc<int>
    var dates: Assoc.Assoc<map<int, string>>
    /** The AC selected by the last click with its position (`M.currentAC`, ...). */
    var current: Option<Found>
    const storage: Storage.LocalStorage

    constructor (storage: Storage.LocalStorage)
      ensures this.storage == storage
      ensures data == [] && levels == [] && dates == [] && current == None
    {
      this.storage := storage;
      data := [];
      levels := [];
      dates := [];
      current := None;
    }

    /** The snapshots are those of the taxonomy, and storage holds them. */
    predicate Saved(entriesBefore: map<string, string>)
      reads this, storage, AllACs(data)
    {
      && levels == LevelsSnapshot(AllACs(data))
      && dates == DatesSnapshot(AllACs(data))
      && storage.entries == StoredSnapshots(entriesBefore, levels, dates)
    }

    /**
     * `M.init` with the fetched taxonomy: overlays the levels saved under
     * `SAE_levels` on the ACs; saved dates are not read back.
     */
    method Init(taxonomy: seq<Competence>) returns (ok: bool)
      modifies this`data, this`levels, set a | a in AllACs(taxonomy)
      ensures data == taxonomy && dates == old(dates) && current == old(current)
      ensures ok <==> ReadSavedLevels(storage.entries) != Unreadable
      ensures levels == (if ReadSavedLevels(storage.entries).Saved? then ReadSavedLevels(storage.entries).levels
                         else old(levels))
      ensures forall a :: a in AllACs(taxonomy) ==> a.dates == old(a.dates)
      ensures forall a :: a in AllACs(taxonomy) ==>
                a.level == (if ReadSavedLevels(storage.entries).Saved?
                            then Overlay(levels, a.code, old(a.level)) else old(a.level))
    {
      data := taxonomy;
      var text := storage.GetItem(LevelsKey);
      if text.None? || text.value == "" {
        return true;
      }
      var parsed := Parse(text.value);
      if parsed.None? {
        return false;
      }
      levels := LevelsFromJson(parsed.value);
      ApplySavedLevelsToTaxonomy(taxonomy, levels);
      return true;
    }

    /**
     * `M.saveData`: rebuilds both snapshots from the taxonomy, keeping only
     * ACs with a positive level or with dates, and writes them to storage.
     */
    method SaveData()
      modifies this`levels, this`dates, storage
      ensures Saved(old(storage.entries))
    {
      RebuildSnapshots();
      storage.entries := storage.entries[LevelsKey := Stringify(LevelsJson(levels))];
      storage.entries := storage.entries[DatesKey := Stringify(DatesSnapshotJson(dates))];
    }

    /** The loops of `M.saveData` that rebuild `M.levels` and `M.dates` from the taxonomy. */
    method RebuildSnapshots()
      modifies this`levels, this`dates
      ensures levels == LevelsSnapshot(AllACs(data)) && dates == DatesSnapshot(AllACs(data))
    {
      levels, dates := Snapshots(data);
    }

    /** `M.findACByCode`: the first AC with this code, in taxonomy order, and where it sits. */
    method FindACByCode(code: string) returns (r: Option<Found>)
      ensures r.None? <==> forall c, n, i :: !CodeAt(data, code, c, n, i)
      ensures r.Some? ==> r.value.ac.code == code && IsFirstFound(data, code, r.value)
    {
      var c := 0;
      while c < |data|
        invariant 0 <= c <= |data|
        invariant forall c', n', i' :: CodeAt(data, code, c', n', i') ==> c' >= c
      {
        var niveaux := data[c].niveaux;
        var n := 0;
        while n < |niveaux|
          invariant 0 <= n <= |niveaux|
          invariant forall c', n', i' :: CodeAt(data, code, c', n', i') ==> c' > c || (c' == c && n' >= n)
        {
          var i := FindInNiveau(niveaux[n].acs, code);
          if i.Some? {
            assert FirstCodeAt(data, code, c, n, i.value);
            return Some(Found(niveaux[n].acs[i.value], data[c].id, n));
          }
          n := n + 1;
        }
        c := c + 1;
      }
      return None;
    }

    /** `M.addLevel`: one level up (at most 5), stamped with `now`, then saved. */
    method AddLevel(ac: AC, now: Timestamp) returns (success: bool)
      modifies ac, this`levels, this`dates, storage
      ensures (success, ac.State()) == AddLevelStep(old(ac.State()), now)
      ensures success ==> Saved(old(storage.entries))
      ensures !success ==> levels == old(levels) && dates == old(dates) && storage.entries == old(storage.entries)
    {
      if ac.level.None? {
        ac.level := Some(0);
      }
      if ac.level.value < MaxLevel {
        var reached := ac.level.value + 1;
        ac.level := Some(reached);
        ac.dates := ac.dates[reached := now];
        SaveData();
        return true;
      }
      return false;
    }

    /** `M.removeLevel`: one level down (not below 0), dropping that level's date, then saved. */
    method RemoveLevel(ac: AC) returns (success: bool)
      modifies ac, this`levels, this`dates, storage
      ensures (success, ac.State()) == RemoveLevelStep(old(ac.State()))
      ensures success ==> Saved(old(storage.entries))
      ensures !success ==> levels == old(levels) && dates == old(dates) && storage.entries == old(storage.entries)
    {
      if ac.level.None? {
        ac.level := Some(0);
      }
      if ac.level.value > 0 {
        var previous := ac.level.value;
        ac.level := Some(previous - 1);
        if previous in ac.dates && ac.dates[previous] != "" {
          ac.dates := ac.dates - {previous};
        }
        SaveData();
        return true;
      }
      return false;
    }

    /** `C.handleACClick`: selects the AC whose SVG id was clicked, if the taxonomy has it. */
    method HandleACClick(acId: string)
      modifies this`current
      ensures (exists c, n, i :: CodeAt(data, Codes.SvgIdToACCode(acId), c, n, i)) ==>
                current.Some? && IsFirstFound(data, Codes.SvgIdToACCode(acId), current.value)
      ensures (forall c, n, i :: !CodeAt(data, Codes.SvgIdToACCode(acId), c, n, i)) ==> current == old(current)
    {
      var code := Codes.SvgIdToACCode(acId);
      var r := FindACByCode(code);
      if r.Some? {
        current := r;
      }
    }

    /** `C.handleAddLevel`: raises the selected AC, if any. */
    method HandleAddLevel(now: Timestamp)
      modifies this`levels, this`dates, storage, if current.Some? then {current.value.ac} else {}
      ensures current == old(current)
      ensures current.None? ==> levels == old(levels) && dates == old(dates) && storage.entries == old(storage.entries)
      ensures current.Some? ==> current.value.ac.State() == AddLevelStep(old(current.value.ac.State()), now).1
      ensures current.Some? && AddLevelStep(old(current.value.ac.State()), now).0 ==> Saved(old(storage.entries))
      ensures current.Some? && !AddLevelStep(old(current.value.ac.State()), now).0 ==>
                levels == old(levels) && dates == old(dates) && storage.entries == old(storage.entries)
    {
      if current.Some? {
        var _ := AddLevel(current.value.ac, now);
      }
    }

    /** `C.handleRemoveLevel`: lowers the selected AC, if any. */
    method HandleRemoveLevel()
      modifies this`levels, this`dates, storage, if current.Some? then {current.value.ac} else {}
      ensures current == old(current)
      ensures current.None? ==> levels == old(levels) && dates == old(dates) && storage.entries == old(storage.entries)
      ensures current.Some? ==> current.value.ac.State() == RemoveLevelStep(old(current.value.ac.State())).1
      ensures current.Some? && RemoveLevelStep(old(current.value.ac.State())).0 ==> Saved(old(storage.entries))
      ensures current.Some? && !RemoveLevelStep(old(current.value.ac.State())).0 ==>
                levels == old(levels) && dates == old(dates) && storage.entries == old(storage.entries)
    {
      if current.Some? {
        var _ := RemoveLevel(current.value.ac);
      }
    }
  }

  /** The overlay of `M.init` on the ACs of one niveau (the inner `forEach`). */
  method ApplySavedLevels(acs: seq<AC>, saved: Assoc.Assoc<int>)
    modifies set a | a in acs
    ensures forall a :: a in acs ==> a.dates == old(a.dates)
    ensures forall a :: a in acs ==> a.level == Overlay(saved, a.code, old(a.level))
  {
    var i := 0;
    while i < |acs|
      invariant 0 <= i <= |acs|
      invariant forall a :: a in acs ==> a.dates == old(a.dates)
      invariant forall a :: a in acs ==>
                  a.level == (if a in acs[..i] then Overlay(saved, a.code, old(a.level)) else old(a.level))
    {
      var ac := acs[i];
      var level := Assoc.Lookup(saved, ac.code);
      if level.Some? {
        ac.level := Some(level.value);
      }
      assert acs[..i + 1] == acs[..i] + [ac];
      i := i + 1;
    }
    assert acs[..i] == acs;
  }

  /** The overlay of `M.init` on the niveaux of one competence (the outer `forEach`). */
  method ApplySavedLevelsToNiveaux(niveaux: seq<Niveau>, saved: Assoc.Assoc<int>)
    modifies set a | a in NiveauACs(niveaux)
    ensures forall a :: a in NiveauACs(niveaux) ==> a.dates == old(a.dates)
    ensures forall a :: a in NiveauACs(niveaux) ==> a.level == Overlay(saved, a.code, old(a.level))
  {
    var n := 0;
    while n < |niveaux|
      invariant 0 <= n <= |niveaux|
      invariant forall a :: a in NiveauACs(niveaux) ==> a.dates == old(a.dates)
      invariant forall a :: a in NiveauACs(niveaux) ==>
                  a.level == (if a in NiveauACs(niveaux[..n]) then Overlay(saved, a.code, old(a.level)) else old(a.level))
    {
      forall i | 0 <= i < |niveaux[n].acs| ensures niveaux[n].acs[i] in NiveauACs(niveaux) {
        InNiveauACs(niveaux, n, i);
      }
      ApplySavedLevels(niveaux[n].acs, saved);
      NiveauACsSnoc(niveaux, n);
      n := n + 1;
    }
    assert niveaux[..n] == niveaux;
  }

  /** The overlay of `M.init` on the whole taxonomy (the outermost `forEach`). */
  method ApplySavedLevelsToTaxonomy(taxonomy: seq<Competence>, saved: Assoc.Assoc<int>)
    modifies set a | a in AllACs(taxonomy)
    ensures forall a :: a in AllACs(taxonomy) ==> a.dates == old(a.dates)
    ensures forall a :: a in AllACs(taxonomy) ==> a.level == Overlay(saved, a.code, old(a.level))
  {
    var c := 0;
    while c < |taxonomy|
      invariant 0 <= c <= |taxonomy|
      invariant forall a :: a in AllACs(taxonomy) ==> a.dates == old(a.dates)
      invariant forall a :: a in AllACs(taxonomy) ==>
                  a.level == (if a in AllACs(taxonomy[..c]) then Overlay(saved, a.code, old(a.level)) else old(a.level))
    {
      forall n, i | 0 <= n < |taxonomy[c].niveaux| && 0 <= i < |taxonomy[c].niveaux[n].acs|
        ensures taxonomy[c].niveaux[n].acs[i] in AllACs(taxonomy)
      {
        InAllACs(taxonomy, c, n, i);
      }
      ApplySavedLevelsToNiveaux(taxonomy[c].niveaux, saved);
      AllACsSnoc(taxonomy, c);
      c := c + 1;
    }
    assert taxonomy[..c] == taxonomy;
  }

  /**
   * The loops of `M.saveData`: the levels and dates snapshots of the taxonomy,
   * built by visiting every AC in order.
   */
  method Snapshots(data: seq<Competence>) returns (levels: Assoc.Assoc<int>, dates: Assoc.Assoc<map<int, string>>)
    ensures levels == LevelsSnapshot(AllACs(data)) && dates == DatesSnapshot(AllACs(data))
  {
    levels, dates := [], [];
    var c := 0;
    while c < |data|
      invariant 0 <= c <= |data|
      invariant Assoc.UniqueKeys(levels) && Assoc.UniqueKeys(dates)
      invariant LevelsFrom(levels, AllACs(data[c..])) == LevelsSnapshot(AllACs(data))
      invariant DatesFrom(dates, AllACs(data[c..])) == DatesSnapshot(AllACs(data))
    {
      var niveaux := data[c].niveaux;
      ghost var levels0, dates0 := levels, dates;
      var n := 0;
      while n < |niveaux|
        invariant 0 <= n <= |niveaux|
        invariant Assoc.UniqueKeys(levels) && Assoc.UniqueKeys(dates)
        invariant LevelsFrom(levels0, AllACs(data[c..])) == LevelsSnapshot(AllACs(data))
        invariant DatesFrom(dates0, AllACs(data[c..])) == DatesSnapshot(AllACs(data))
        invariant LevelsFrom(levels, NiveauACs(niveaux[n..])) == LevelsFrom(levels0, NiveauACs(niveaux))
        invariant DatesFrom(dates, NiveauACs(niveaux[n..])) == DatesFrom(dates0, NiveauACs(niveaux))
      {
        var acs := niveaux[n].acs;
        ghost var levels1, dates1 := levels, dates;
        var i := 0;
        while i < |acs|
          invariant 0 <= i <= |acs|
          invariant Assoc.UniqueKeys(levels) && Assoc.UniqueKeys(dates)
          invariant LevelsFrom(levels0, AllACs(data[c..])) == LevelsSnapshot(AllACs(data))
          invariant DatesFrom(dates0, AllACs(data[c..])) == DatesSnapshot(AllACs(data))
          invariant LevelsFrom(levels1, NiveauACs(niveaux[n..])) == LevelsFrom(levels0, NiveauACs(niveaux))
          invariant DatesFrom(dates1, NiveauACs(niveaux[n..])) == DatesFrom(dates0, NiveauACs(niveaux))
          invariant LevelsFrom(levels, acs[i..]) == LevelsFrom(levels1, acs)
          invariant DatesFrom(dates, acs[i..]) == DatesFrom(dates1, acs)
        {
          var ac := acs[i];
          assert acs[i..][1..] == acs[i + 1..];
          if ac.level.Some? && ac.level.value > 0 {
            levels := Assoc.Put(levels, ac.code, ac.level.value);
          }
          if |ac.dates| > 0 {
            dates := Assoc.Put(dates, ac.code, ac.dates);
          }
          i := i + 1;
        }
        assert acs[i..] == [];
        assert NiveauACs(niveaux[n..]) == acs + NiveauACs(niveaux[n + 1..]) by {
          assert niveaux[n..][1..] == niveaux[n + 1..];
        }
        LevelsFromAppend(levels1, acs, NiveauACs(niveaux[n + 1..]));
        DatesFromAppend(dates1, acs, NiveauACs(niveaux[n + 1..]));
        n := n + 1;
      }
      assert niveaux[n..] == [];
      assert AllACs(data[c..]) == NiveauACs(niveaux) + AllACs(data[c + 1..]) by {
        assert data[c..][1..] == data[c + 1..];
      }
      LevelsFromAppend(levels0, NiveauACs(niveaux), AllACs(data[c + 1..]));
      DatesFromAppend(dates0, NiveauACs(niveaux), AllACs(data[c + 1..]));
      c := c + 1;
    }
    assert data[c..] == [];
  }

  /** The `for ... of` over one niveau's ACs in `M.findACByCode`: the first index holding the code. */
  method FindInNiveau(acs: seq<AC>, code: string) returns (r: Option<nat>)
    ensures r.None? <==> forall i :: 0 <= i < |acs| ==> acs[i].code != code
    ensures r.Some? ==> r.value < |acs| && acs[r.value].code == code
    ensures r.Some? ==> forall i :: 0 <= i < r.value ==> acs[i].code != code
  {
    var i := 0;
    while i < |acs|
      invariant 0 <= i <= |acs|
      invariant forall j :: 0 <= j < i ==> acs[j].code != code
    {
      if acs[i].code == code {
        return Some(i);
      }
      i := i + 1;
    }
    return None;
  }

  /**
   * Saving and reloading: after `M.saveData` has written the levels of `acs`,
   * `M.init` gives every AC whose code had a positive level the level of the
   * last such AC, and leaves every other AC's level as the taxonomy has it.
   */
  lemma ReloadRestoresLevels(entries: map<string, string>, acs: seq<AC>,
                             dates: Assoc.Assoc<map<int, string>>, code: string, initial: Option<int>)
    ensures ReadSavedLevels(StoredSnapshots(entries, LevelsSnapshot(acs), dates)).Saved?
    ensures forall i :: LastLevelled(acs, code, i) ==>
              Overlay(ReadSavedLevels(StoredSnapshots(entries, LevelsSnapshot(acs), dates)).levels, code, initial)
                == acs[i].level
    ensures (forall i :: 0 <= i < |acs| && acs[i].code == code ==> !HasLevel(acs[i])) ==>
              Overlay(ReadSavedLevels(StoredSnapshots(entries, LevelsSnapshot(acs), dates)).levels, code, initial)
                == initial
  {
    SavedLevelsRoundTrip(entries, LevelsSnapshot(acs), dates);
    LevelsSnapshotSpec(acs, code);
  }
}
