/** Data model of an icon's animation configuration and of the rendered graphic.

    Attribute payloads are taken as already-parsed attribute maps. JavaScript
    truthiness is written out: an empty `condition`, `url` or `svg` string is
    "absent", a `delayFactor` of 0 is "absent", and the optional payloads are
    `Option`s. */
module Types {

  datatype Option<+T> = None | Some(value: T)

  /** A parsed attribute payload: attribute name to attribute value. */
  type Attrs = map<string, string>

  /** The selectable sub-elements of the mounted graphic: selector to its current attributes. */
  type Store = map<string, Attrs>

  /** A direction record (`from` or `to`): the phases played when entering one state. */
  datatype Direction = Direction(
    before: Option<Attrs>,
    val: Attrs,
    delayFactor: int,
    after: Option<Attrs>,
    animAfter: Option<Attrs>)

  /** The pair of direction records of one element animation. */
  datatype PropertySet = PropertySet(from: Direction, to: Direction)

  /** One entry of a `mediaMatch` list: a media condition ("" when absent) and its records. */
  datatype MediaEntry = MediaEntry(condition: string, props: PropertySet)

  /** `animProperties`: either a direct property set or a `mediaMatch` list. */
  datatype AnimProperties =
    | Direct(props: PropertySet)
    | MediaMatch(entries: seq<MediaEntry>)

  /** One entry of `config.animation`: the element's selector and its properties. */
  datatype ElementAnimation = ElementAnimation(el: string, anim: AnimProperties)

  /** The icon configuration; `animation` is `None` when the key is absent. */
  datatype IconConfig = IconConfig(url: string, svg: string, animation: Option<seq<ElementAnimation>>)

  /** A pending callback on the event loop.
      `Deferred` is the `setTimeout` closure of one motion toggle iteration; it holds
      that iteration's own element handle (`None` when the selector matched nothing),
      `val` and direction record. `Chained` is the second animation to `animAfter`
      started on completion of the first, with nothing chained after it. */
  datatype Task =
    | Deferred(delay: int, target: Option<string>, val: Attrs, rec: Direction)
    | Chained(el: string, goal: Attrs)

  /** Applies an attribute map to one element: its keys overwrite, the others stay. */
  function SetAttrs(store: Store, sel: string, attrs: Attrs): (r: Store)
    requires sel in store
    ensures r.Keys == store.Keys
    ensures forall s :: s in store && s != sel ==> r[s] == store[s]
    ensures r[sel].Keys == store[sel].Keys + attrs.Keys
    ensures forall k :: k in attrs ==> r[sel][k] == attrs[k]
    ensures forall k :: k in store[sel] && k !in attrs ==> r[sel][k] == store[sel][k]
  {
    store[sel := store[sel] + attrs]
  }
}
