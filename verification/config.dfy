/** `api/ConfigImpl`: a string-to-string map that may be initialised once.
    A stored value may be null, which `get` reports as empty. */
module Configuration {
  import opened Base

  class ConfigImpl {
    var entries: map<string, Option<string>>

    /** A fresh config holds nothing. */
    constructor ()
      ensures entries == map[]
    {
      entries := map[];
    }

    /** `init(configs)`: copies every entry into an empty config; a
        non-empty config refuses with IllegalOperationException. */
    method Init(configs: map<string, Option<string>>) returns (out: Outcome)
      modifies this
      ensures old(entries) != map[] ==> out == Throws(IllegalOperationException) && entries == old(entries)
      ensures old(entries) == map[] ==> out == Normal && entries == configs
    {
      if entries != map[] {
        return Throws(IllegalOperationException);
      }
      entries := entries + configs;
      out := Normal;
    }

    /** `get(key)`: `Optional.ofNullable(configs.get(key))`. */
    function Get(key: string): (r: Option<string>)
      reads this
      ensures r.Some? <==> key in entries && entries[key].Some?
      ensures r.Some? ==> r.value == entries[key].value
    {
      if key in entries then entries[key] else None
    }
  }

  /** A fresh config reports nothing; `init` on it succeeds, after which
      `get` reports the initialising map's value, a null value as empty; a
      second `init` is refused unless the first map was empty. */
  method InitThenGet(configs: map<string, Option<string>>, key: string, again: map<string, Option<string>>)
    returns (before: Option<string>, first: Outcome, after: Option<string>, second: Outcome)
    ensures before == None && first == Normal
    ensures after.Some? <==> key in configs && configs[key].Some?
    ensures after.Some? ==> after.value == configs[key].value
    ensures second == if configs == map[] then Normal else Throws(IllegalOperationException)
  {
    var c := new ConfigImpl();
    before := c.Get(key);
    first := c.Init(configs);
    after := c.Get(key);
    second := c.Init(again);
  }
}
