/** How the `cache` input switches cache restore and cache save on. */
module CacheInput {

  datatype Flags = Flags(save: bool, restore: bool)

  /** The values that enable saving: `["true", "save-only"].includes(cacheInput)`. */
  const SaveValues: seq<string> := ["true", "save-only"]

  function ParseCache(input: string): (f: Flags)
    ensures f.save <==> input == "true" || input == "save-only"
    ensures f.restore <==> input == "true"
  {
    Flags(input in SaveValues, input == "true")
  }

  /** Restoring is only ever enabled together with saving. */
  lemma RestoreImpliesSave(input: string)
    ensures ParseCache(input).restore ==> ParseCache(input).save
  {
  }

  /** "save-only" saves and never restores; every other value except "true" disables both. */
  lemma SaveOnlyAndOthers(input: string)
    ensures input == "save-only" ==> ParseCache(input) == Flags(true, false)
    ensures input != "true" && input != "save-only" ==> ParseCache(input) == Flags(false, false)
  {
  }

  /** Caching is enabled but the cache service is not reachable: a warning, never an abort. */
  predicate WarnsUnavailable(f: Flags, serviceAvailable: bool)
  {
    (f.save || f.restore) && !serviceAvailable
  }
}
