/** The host's shared preferences object, held in memory. */
module Settings {
  import opened Optional

  /** Python truthiness of an optional string argument: neither `None` nor `""`. */
  predicate Truthy(name: Option<string>)
  {
    name.Some? && name.value != ""
  }

  /**
   The settings object `Preferences.sublime-settings`: each key maps to a string, or to
   `None` for a stored null. Saving it to disk is the host's business.
   */
  class Preferences {
    var entries: map<string, Option<string>>

    constructor (initial: map<string, Option<string>>)
      ensures entries == initial
    {
      entries := initial;
    }

    /** `settings.get(key)`: `None` for an absent key as for a null one. */
    function Get(key: string): Option<string>
      reads this
    {
      if key in entries then entries[key] else None
    }

    /** `settings.set(key, value)`: only `key` changes. */
    method Set(key: string, value: Option<string>)
      modifies this
      ensures entries == old(entries)[key := value]
    {
      entries := entries[key := value];
    }
  }
}
