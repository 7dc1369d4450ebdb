/**
 * `useItems`: the items of a collection whose name may change, with the
 * fetch that fills them. The backend read is a function of the collection
 * name it is issued for.
 */
module Items {
  import opened Common
  import opened Reactive
  import opened Options

  /** What `useItems` returns: the controls object when `controls` is set, else the bare `items`. */
  datatype ItemsHandle<T> =
    | Controls(items: seq<T>, loading: bool, error: Option<Error>, collection: string)
    | Bare(items: seq<T>)

  class ItemsQuery<T> {
    const name: ReactiveArg<string>
    const settings: Settings
    var items: seq<T>
    var loading: bool
    var error: Option<Error>

    /**
     * Setting up the composable: options merged with the defaults, state
     * `items = []`, `loading = false`, `error = null`, then one immediate
     * fetch exactly when the `fetch` setting is on.
     */
    constructor (name: ReactiveArg<string>, options: QueryOptions, readMany: string -> Outcome<seq<T>>)
      ensures this.name == name && settings == WithDefaults(options)
      ensures !loading
      ensures !settings.fetch ==> items == [] && error.None?
      ensures settings.fetch ==> Settled(readMany(Resolve(name)))
    {
      this.name := name;
      settings := WithDefaults(options);
      items, loading, error := [], false, None;
      new;
      if settings.fetch {
        Fetch(readMany);
      }
    }

    /** The state a fetch leaves once its read has settled with `response`. */
    ghost predicate Settled(response: Outcome<seq<T>>)
      reads this
    {
      && !loading
      && (response.Ok? ==> items == response.value && error.None?)
      && (response.Err? ==> items == [] && error == Some(response.error))
    }

    /**
     * `fetch`: clears the error, raises `loading`, reads the collection the
     * name currently resolves to, stores the data or the error (resetting
     * the items), and always lowers `loading`.
     */
    method Fetch(readMany: string -> Outcome<seq<T>>)
      modifies this
      ensures Settled(readMany(Resolve(name)))
    {
      error := None;
      loading := true;
      var response := readMany(Resolve(name));
      if response.Ok? {
        items := response.value;
      } else {
        items := [];
        error := Some(response.error);
      }
      loading := false;
    }

    /** The value `useItems` returns. */
    function Handle(): (h: ItemsHandle<T>)
      reads this, Footprint(name)
      ensures h.Controls? <==> settings.controls
      ensures h.items == items
      ensures h.Controls? ==> h.loading == loading && h.error == error && h.collection == Resolve(name)
    {
      if settings.controls then Controls(items, loading, error, Resolve(name)) else Bare(items)
    }
  }
}
