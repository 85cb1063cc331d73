/** The browser's `localStorage`: string values stored under string keys. */
module Storage {
  import opened Wrappers

  class LocalStorage {
    var entries: map<string, string>

    constructor ()
      ensures entries == map[]
    {
      entries := map[];
    }

    /** `localStorage.getItem(key)`; None stands for `null`. */
    function GetItem(key: string): Option<string>
      reads this
    {
      if key in entries then Some(entries[key]) else None
    }
  }
}
