/**
 * The runtime client helpers: which settings the client uses on the server
 * and in the browser, how a relative backend URL is made absolute, how an
 * error response is turned into a thrown error, and how translation records
 * become the key/value map handed to i18n.
 *
 * URL parsing and joining are the library's; they are parameters here.
 */
module Client {
  import opened Common
  import Helpers

  /** The module's runtime settings (private on the server, public in the browser). */
  datatype DirectusConfig = DirectusConfig(
    url: string,
    accessToken: Option<string>,
    i18nPrefix: Option<string>,
    other: map<string, string>)

  /** Where the code runs; in the browser, `window.location.origin`. */
  datatype Side = Server | Browser(origin: string)

  /** The URL library: whether a URL parses with a hostname, and how two parts are joined. */
  datatype UrlLibrary = UrlLibrary(hasHostname: string -> bool, join: (string, string) -> string)

  /** What the response-error hook does: let the response through, or throw. */
  datatype HookResult = PassThrough | Throw(status: int, message: string)

  /** One item of a response's `errors` array. */
  datatype ApiError = ApiError(message: string)

  /** The message thrown for a missing URL, without its module-name prefix. */
  const NoUrlMessage: string := "No Directus URL provided for client."

  /**
   * `getRuntimeClientDirectusURL`: an empty URL is an error; a URL with a
   * hostname is kept; any other is joined onto the page's origin.
   */
  function ClientUrl(path: string, origin: string, lib: UrlLibrary): (r: Outcome<string>)
    ensures r.Err? <==> path == ""
    ensures r.Err? ==> r.error == Error(NoUrlMessage)
    ensures path != "" && lib.hasHostname(path) ==> r == Ok(path)
    ensures path != "" && !lib.hasHostname(path) ==> r == Ok(lib.join(origin, path))
  {
    if path == "" then Err(Error(NoUrlMessage))
    else if lib.hasHostname(path) then Ok(path)
    else Ok(lib.join(origin, path))
  }

  /**
   * Resolving twice is resolving once, provided a URL joined onto the origin
   * has a hostname (as it does for a page origin such as `https://host`).
   */
  lemma ClientUrlIdempotent(path: string, origin: string, lib: UrlLibrary)
    requires path != ""
    requires lib.join(origin, path) != "" && lib.hasHostname(lib.join(origin, path))
    ensures ClientUrl(path, origin, lib).Ok?
    ensures ClientUrl(ClientUrl(path, origin, lib).value, origin, lib) == ClientUrl(path, origin, lib)
  {
  }

  /**
   * `getRuntimeConfig`: on the server, the private settings untouched; in
   * the browser, a copy of the public settings in which only `url` is
   * replaced by its resolved form.
   */
  function RuntimeConfig(side: Side, privateConfig: DirectusConfig, publicConfig: DirectusConfig, lib: UrlLibrary)
    : (r: Outcome<DirectusConfig>)
    ensures side.Server? ==> r == Ok(privateConfig)
    ensures side.Browser? ==> (r.Err? <==> publicConfig.url == "")
    ensures side.Browser? && r.Ok? ==>
      r.value.accessToken == publicConfig.accessToken && r.value.i18nPrefix == publicConfig.i18nPrefix &&
      r.value.other == publicConfig.other && Ok(r.value.url) == ClientUrl(publicConfig.url, side.origin, lib)
  {
    match side
    case Server => Ok(privateConfig)
    case Browser(origin) =>
      var url := ClientUrl(publicConfig.url, origin, lib);
      if url.Err? then Err(url.error) else Ok(publicConfig.(url := url.value))
  }

  /**
   * The `onResponseError` hook: nothing when `errors` is absent or empty,
   * otherwise a thrown error with the response status and the first error's
   * message.
   */
  function OnResponseError(status: int, errors: Option<seq<ApiError>>): (r: HookResult)
    ensures r.PassThrough? <==> errors.None? || errors.value == []
    ensures r.Throw? ==> r.status == status && r.message == errors.value[0].message
  {
    var all := if errors.Some? then errors.value else [];
    if all == [] then PassThrough else Throw(status, all[0].message)
  }

  /** Only the first error is reported: whatever follows it makes no difference. */
  lemma OnlyFirstErrorReported(status: int, first: ApiError, rest: seq<ApiError>)
    ensures OnResponseError(status, Some([first] + rest)) == OnResponseError(status, Some([first]))
  {
  }

  /**
   * The map built from the records' key/value pairs: pairs are stored in
   * record order, so a later record overwrites an earlier one.
   */
  function TranslationMap(records: seq<Helpers.Translation>): (m: map<string, string>)
    ensures m.Keys == set t | t in records :: t.key
  {
    if records == [] then map[]
    else
      var last := records[|records| - 1];
      TranslationMap(records[..|records| - 1])[last.key := last.value]
  }

  /** For a duplicated key, the value of the last record with that key wins. */
  lemma {:induction false} LastRecordWins(records: seq<Helpers.Translation>, i: nat)
    requires i < |records|
    requires forall j :: i < j < |records| ==> records[j].key != records[i].key
    ensures TranslationMap(records)[records[i].key] == records[i].value
  {
    var init := records[..|records| - 1];
    if i < |records| - 1 {
      LastRecordWins(init, i);
    }
  }

  /** `getI18nTranslations`: the fetched records as a map, or the failed fetch's error. */
  function I18nTranslations(fetched: Outcome<seq<Helpers.Translation>>): (r: Outcome<map<string, string>>)
    ensures fetched.Err? ==> r == Err(fetched.error)
    ensures fetched.Ok? ==> r == Ok(TranslationMap(fetched.value))
    ensures fetched.Ok? ==> r.value.Keys == set t | t in fetched.value :: t.key
  {
    match fetched
    case Err(e) => Err(e)
    case Ok(records) => Ok(TranslationMap(records))
  }

  /**
   * A target given as `[key, value]` entries stands for the map `m`: looking
   * a key up in the entries gives the value `m` holds for it, or nothing when
   * `m` lacks the key.
   */
  ghost predicate Represents(target: seq<Helpers.Entry>, m: map<string, string>)
  {
    forall k :: Helpers.Get(target, k) == (if k in m then Some(m[k]) else None)
  }

  /**
   * Syncing back the map `getI18nTranslations` just returned is a no-op: when
   * the records' keys are distinct and no value is empty, the records' own
   * `[key, value]` entries stand for that map, and they yield three empty
   * buckets.
   */
  lemma ResyncFetchedIsNoop(locale: string, records: seq<Helpers.Translation>)
    requires forall i, j :: 0 <= i < j < |records| ==> records[i].key != records[j].key
    requires forall i :: 0 <= i < |records| ==> records[i].value != ""
    ensures var target := seq(|records|, i requires 0 <= i < |records| => (records[i].key, records[i].value));
            && Represents(target, I18nTranslations(Ok(records)).value)
            && Helpers.CreateBucket(locale, target, records) == []
            && Helpers.UpdateBucket(target, records) == []
            && Helpers.RemoveBucket(target, records) == []
  {
    var target := seq(|records|, i requires 0 <= i < |records| => (records[i].key, records[i].value));
    var m := TranslationMap(records);
    assert Helpers.DistinctKeys(target);
    forall k ensures Helpers.Get(target, k) == (if k in m then Some(m[k]) else None) {
      if k in m {
        var t :| t in records && t.key == k;
        var i :| 0 <= i < |records| && records[i] == t;
        LastRecordWins(records, i);
        Helpers.GetDistinct(target, i);
      } else {
        forall e | e in target ensures e.0 != k {
          var i :| 0 <= i < |target| && target[i] == e;
          assert records[i] in records;
        }
      }
    }
    forall t | t in records ensures Helpers.Get(target, t.key) == Some(t.value) {
      var i :| 0 <= i < |records| && records[i] == t;
      Helpers.GetDistinct(target, i);
    }
    forall i | 0 <= i < |target| ensures target[i].1 != "" && exists t :: t in records && t.key == target[i].0 {
      assert records[i] in records;
    }
    assert forall t :: t in records ==> Helpers.Get(target, t.key) == Some(t.value);
    assert forall i :: 0 <= i < |target| ==> (exists t :: t in records && t.key == target[i].0);
    assert forall i :: 0 <= i < |target| ==> target[i].1 != "";
    Helpers.SyncIdempotent(locale, target, records);
  }
}
