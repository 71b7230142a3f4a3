/** Plain script objects as used for the icon options, and the shallow merge `extend`. */
module Objects {

  /** An option value: a number, a string, a `{ w, h }` size record, or a reference
      to a function (easing, hooks) by name. */
  datatype Value = Num(n: int) | Str(s: string) | Size(w: int, h: int) | Func(name: string)

  /** A mutable object. `own` holds its own enumerable properties; `inherited` those
      it sees through its prototype chain, which a `for...in` loop also visits. */
  class JsObject {
    var own: map<string, Value>
    var inherited: map<string, Value>

    constructor (own: map<string, Value>, inherited: map<string, Value>)
      ensures this.own == own && this.inherited == inherited
    {
      this.own := own;
      this.inherited := inherited;
    }
  }

  /** `extend(a, b)`: copies every own property of `b` onto `a`, overwriting, leaves
      the other properties of `a` alone, and returns `a`. An absent `b` (`null`)
      copies nothing; inherited properties of `b` are skipped. */
  method Extend(a: JsObject, b: JsObject?) returns (r: JsObject)
    modifies a
    ensures r == a
    ensures b == null ==> a.own == old(a.own)
    ensures b != null ==> a.own == old(a.own) + old(b.own)
    ensures a.inherited == old(a.inherited)
    ensures b != null && b != a ==> b.own == old(b.own)
  {
    if b == null {
      return a;
    }
    ghost var src := b.own;
    // the keys a `for...in` loop over `b` visits, in an order the engine chooses
    var pending := b.own.Keys + b.inherited.Keys;
    ghost var done: set<string> := {};
    while pending != {}
      invariant done !! pending && done + pending == src.Keys + b.inherited.Keys
      invariant forall k :: k in pending ==> (k in b.own <==> k in src)
      invariant forall k :: k in pending && k in src ==> b.own[k] == src[k]
      invariant a.own == old(a.own) + map k | k in done && k in src :: src[k]
      invariant a.inherited == old(a.inherited)
      invariant b != a ==> b.own == src
      decreases pending
    {
      var key :| key in pending;
      if key in b.own {
        a.own := a.own[key := b.own[key]];
      }
      pending := pending - {key};
      done := done + {key};
    }
    assert (map k | k in done && k in src :: src[k]) == src;
    return a;
  }
}
