/**
 * Arguments that may be a plain value, a zero-argument getter or a reactive
 * reference (`ReactiveArg<T>`), and the one rule that reads them.
 */
module Reactive {

  /** A mutable reactive reference (`Ref<T>`). */
  class Ref<T> {
    var value: T

    constructor (v: T)
      ensures value == v
    {
      value := v;
    }
  }

  /** `ReactiveArg<T>` as a tagged union. */
  datatype ReactiveArg<T> = Plain(value: T) | Getter(get: () -> T) | Reactive(cell: Ref<T>)

  /** The objects whose state an argument's current value depends on. */
  function Footprint<T>(arg: ReactiveArg<T>): set<object>
  {
    if arg.Reactive? then {arg.cell} else {}
  }

  /**
   * How an argument is read: a getter is called, a reference is read as it
   * stands now, and a plain value is returned unchanged.
   */
  function Resolve<T>(arg: ReactiveArg<T>): (r: T)
    reads Footprint(arg)
    ensures arg.Plain? ==> r == arg.value
    ensures arg.Getter? ==> r == arg.get()
    ensures arg.Reactive? ==> r == arg.cell.value
  {
    match arg
    case Plain(v) => v
    case Getter(get) => get()
    case Reactive(cell) => cell.value
  }

  /**
   * The three forms of an argument that all stand for `x` resolve to `x`,
   * and a reference resolves to what it holds at the time it is read: after
   * `y` is written into it, it resolves to `y`.
   */
  method ResolveFollowsReference<T>(x: T, y: T) returns (plain: T, getter: T, before: T, after: T)
    ensures plain == x && getter == x
    ensures before == x && after == y
  {
    var cell := new Ref(x);
    var arg := Reactive(cell);
    plain := Resolve(Plain(x));
    getter := Resolve(Getter(() => x));
    before := Resolve(arg);
    cell.value := y;
    after := Resolve(arg);
  }
}
