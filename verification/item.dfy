/**
 * `useItem`: one record of a collection, both the collection name and the
 * record id possibly changing. The backend read is a function of the
 * collection name and the id it is issued for.
 */
module Item {
  import opened Common
  import opened Reactive
  import opened Options

  /** A record id: a string or a number. */
  datatype ID = Text(text: string) | Number(number: int)

  /** What `useItem` returns: the controls object when `controls` is set, else the bare `item`. */
  datatype ItemHandle<T> =
    | Controls(item: Option<T>, loading: bool, error: Option<Error>)
    | Bare(item: Option<T>)

  class ItemQuery<T> {
    const name: ReactiveArg<string>
    const id: ReactiveArg<ID>
    const settings: Settings
    var item: Option<T>
    var loading: bool
    var error: Option<Error>

    /** The computed `idValue`: the id argument read by the rule every argument follows. */
    function IdValue(): (v: ID)
      reads Footprint(id)
      ensures id.Plain? ==> v == id.value
      ensures id.Getter? ==> v == id.get()
      ensures id.Reactive? ==> v == id.cell.value
    {
      Resolve(id)
    }

    /**
     * Setting up the composable: options merged with the defaults, state
     * `item` undefined, `loading = false`, `error = null`, then one
     * immediate fetch exactly when the `fetch` setting is on.
     */
    constructor (name: ReactiveArg<string>, id: ReactiveArg<ID>, options: QueryOptions, readOne: (string, ID) -> Outcome<T>)
      ensures this.name == name && this.id == id && settings == WithDefaults(options)
      ensures !loading
      ensures !settings.fetch ==> item.None? && error.None?
      ensures settings.fetch ==> Settled(readOne(Resolve(name), Resolve(id)))
    {
      this.name := name;
      this.id := id;
      settings := WithDefaults(options);
      item, loading, error := None, false, None;
      new;
      if settings.fetch {
        Fetch(readOne);
      }
    }

    /** The state a fetch leaves once its read has settled with `response`. */
    ghost predicate Settled(response: Outcome<T>)
      reads this
    {
      && !loading
      && (response.Ok? ==> item == Some(response.value) && error.None?)
      && (response.Err? ==> item.None? && error == Some(response.error))
    }

    /**
     * `fetch`: clears the error, raises `loading`, reads the record the id
     * currently resolves to in the collection the name resolves to, stores
     * it or the error (leaving `item` undefined), and always lowers `loading`.
     */
    method Fetch(readOne: (string, ID) -> Outcome<T>)
      modifies this
      ensures Settled(readOne(Resolve(name), IdValue()))
    {
      error := None;
      loading := true;
      var response := readOne(Resolve(name), IdValue());
      if response.Ok? {
        item := Some(response.value);
      } else {
        item := None;
        error := Some(response.error);
      }
      loading := false;
    }

    /** The value `useItem` returns. */
    function Handle(): (h: ItemHandle<T>)
      reads this
      ensures h.Controls? <==> settings.controls
      ensures h.item == item
      ensures h.Controls? ==> h.loading == loading && h.error == error
    {
      if settings.controls then Controls(item, loading, error) else Bare(item)
    }
  }
}
