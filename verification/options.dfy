/**
 * The options of the collection composables (`useItems`, `useItem`) and how
 * they are merged with the defaults.
 */
module Options {
  import opened Common

  /** The caller's options; `None` is an option left `undefined`. */
  datatype QueryOptions = QueryOptions(
    fetch: Option<bool>,
    controls: Option<bool>,
    watch: Option<bool>,
    refreshOnAuthChanged: Option<bool>)

  /** The options once merged with the defaults. */
  datatype Settings = Settings(fetch: bool, controls: bool, watch: bool, refreshOnAuthChanged: bool)

  const Defaults: Settings := Settings(true, false, true, true)

  /** No options given (`options` itself `undefined`). */
  const NoOptions: QueryOptions := QueryOptions(None, None, None, None)

  /** A defined caller value wins over the default. */
  function Pick(given: Option<bool>, default: bool): bool
  {
    if given.Some? then given.value else default
  }

  /**
   * The caller's options merged with the defaults: a defined caller value
   * wins, and an undefined one takes fetch on, controls off, watch on and
   * refresh-on-auth-change on.
   */
  function WithDefaults(options: QueryOptions): (s: Settings)
    ensures options.fetch.Some? ==> s.fetch == options.fetch.value
    ensures options.controls.Some? ==> s.controls == options.controls.value
    ensures options.watch.Some? ==> s.watch == options.watch.value
    ensures options.refreshOnAuthChanged.Some? ==> s.refreshOnAuthChanged == options.refreshOnAuthChanged.value
    ensures options.fetch.None? ==> s.fetch
    ensures options.controls.None? ==> !s.controls
    ensures options.watch.None? ==> s.watch
    ensures options.refreshOnAuthChanged.None? ==> s.refreshOnAuthChanged
  {
    Settings(
      Pick(options.fetch, Defaults.fetch),
      Pick(options.controls, Defaults.controls),
      Pick(options.watch, Defaults.watch),
      Pick(options.refreshOnAuthChanged, Defaults.refreshOnAuthChanged))
  }

  /** Options that spell out every setting. */
  function Explicit(s: Settings): QueryOptions
  {
    QueryOptions(Some(s.fetch), Some(s.controls), Some(s.watch), Some(s.refreshOnAuthChanged))
  }

  /**
   * Omitting the options gives the defaults, and options that spell out
   * every setting are taken as they are, whatever the defaults say.
   */
  lemma DefaultsRoundTrip(s: Settings)
    ensures WithDefaults(NoOptions) == Defaults
    ensures WithDefaults(Explicit(s)) == s
  {
  }
}
