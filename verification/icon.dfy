/** The icon instance: its options, its `toggled` state, the elements of its mounted
    graphic and the callbacks it has left on the event loop. */
module Icons {
  import opened Types
  import opened Resolver
  import Engine
  import opened Objects

  /** The shared default options of every icon. */
  method NewDefaults() returns (d: JsObject)
    ensures fresh(d)
    ensures d.own == map["speed" := Num(200), "easing" := Func("mina.linear"), "evtoggle" := Str("click"),
                         "size" := Size(64, 64), "onLoad" := Func("onLoad"), "onToggle" := Func("onToggle")]
    ensures d.inherited == map[]
  {
    d := new JsObject(map["speed" := Num(200), "easing" := Func("mina.linear"), "evtoggle" := Str("click"),
                          "size" := Size(64, 64), "onLoad" := Func("onLoad"), "onToggle" := Func("onToggle")], map[]);
  }

  /** `new svgIcon(el, config, options)` with the shared defaults: an icon whose
      caller gives no numeric `speed` takes the default 200. */
  method NewIcon(config: Option<IconConfig>, user: JsObject?, reverseClass: bool, graphic: Store,
                 matches: string -> bool) returns (icon: Icon)
    ensures fresh(icon) && icon.Valid()
    ensures user == null || "speed" !in old(user.own) ==> icon.Speed() == 200
    ensures user != null && "speed" in old(user.own) && old(user.own)["speed"].Num? ==>
      icon.Speed() == old(user.own)["speed"].n
  {
    var defaults := NewDefaults();
    icon := new Icon(config, defaults, user, reverseClass, graphic, matches);
  }

  class Icon {
    var options: JsObject
    var toggled: bool
    var reverse: bool
    var config: Option<IconConfig>
    /** The selectable elements of the canvas and their attributes. */
    var elements: Store
    /** Callbacks waiting on the event loop (`setTimeout` closures and chained animations). */
    var queue: seq<Task>
    /** An external graphic is being fetched and its load callback has not run yet. */
    var loadPending: bool
    var onLoadCalls: nat
    var onToggleCalls: nat

    /** Every element handle a pending callback holds is an element of the canvas. */
    ghost predicate Valid()
      reads this
    {
      forall t :: t in queue ==>
        (t.Deferred? && t.target.Some? ==> t.target.value in elements) && (t.Chained? ==> t.el in elements)
    }

    /** The `speed` option as a number; a non-numeric value gives delay 0, as `NaN` does. */
    function Speed(): (r: int)
      reads this, options
      ensures "speed" in options.own && options.own["speed"].Num? ==> r == options.own["speed"].n
      ensures "speed" !in options.own || !options.own["speed"].Num? ==> r == 0
    {
      if "speed" in options.own && options.own["speed"].Num? then options.own["speed"].n else 0
    }

    /** Copies the shared defaults into a fresh options object, merges the caller's
        options over it, records the reverse marker and, for an inline graphic, runs
        the load callback at once; an external graphic is left loading. */
    constructor (config: Option<IconConfig>, defaults: JsObject, user: JsObject?, reverseClass: bool,
                 graphic: Store, matches: string -> bool)
      ensures Valid()
      ensures fresh(options)
      ensures options.own == old(defaults.own) + (if user == null then map[] else old(user.own))
      ensures defaults.own == old(defaults.own)
      ensures user != null ==> user.own == old(user.own)
      ensures this.config == config && reverse == reverseClass && onToggleCalls == 0
      ensures config.None? || (config.value.url == "" && config.value.svg == "") ==>
        !loadPending && onLoadCalls == 0 && elements == map[] && queue == [] && !toggled
      ensures config.Some? && config.value.url != "" ==>
        loadPending && onLoadCalls == 0 && elements == map[] && queue == [] && !toggled
      ensures config.Some? && config.value.url == "" && config.value.svg != "" ==>
        && !loadPending && onLoadCalls == 1 && queue == []
        && var (o, flip) := if reverseClass then Engine.Toggle(config, Engine.Ctx(false, false, matches, Speed()), Engine.Effects(graphic, []))
                            else (Engine.Outcome(Engine.Effects(graphic, []), true), false);
           elements == o.effects.store && toggled == flip
    {
      var opts := new JsObject(map[], map[]);
      opts := Extend(opts, defaults);
      opts := Extend(opts, user);
      options := opts;
      elements := map[];
      toggled := false;
      reverse := reverseClass;
      this.config := config;
      queue := [];
      loadPending := false;
      onLoadCalls := 0;
      onToggleCalls := 0;
      new;
      if config.None? {
        return;
      }
      if config.value.url != "" {
        loadPending := true;
        return;
      }
      if config.value.svg != "" {
        assert map[] + graphic == graphic;
        var _ := Loaded(graphic, matches);
      }
    }

    /** The load callback: mounts the graphic, calls `onLoad` and, for a reversed icon,
        toggles once without motion and without calling `onToggle`. `ok` is false
        when that toggle throws. */
    method Loaded(graphic: Store, matches: string -> bool) returns (ok: bool)
      requires Valid()
      modifies this
      ensures Valid()
      ensures options == old(options) && config == old(config) && reverse == old(reverse)
      ensures !loadPending && onLoadCalls == old(onLoadCalls) + 1 && onToggleCalls == old(onToggleCalls)
      ensures queue == old(queue)
      ensures var mounted := Engine.Effects(old(elements) + graphic, old(queue));
        var (o, flip) := if old(reverse) then Engine.Toggle(config, Engine.Ctx(old(toggled), false, matches, Speed()), mounted)
                         else (Engine.Outcome(mounted, true), false);
        elements == o.effects.store && ok == o.ok && toggled == (old(toggled) != flip)
    {
      elements := elements + graphic;
      loadPending := false;
      onLoadCalls := onLoadCalls + 1;
      ok := true;
      if reverse {
        if config.Some? && config.value.animation.Some? {
          Engine.NonMotionQueuesNothing(config.value.animation.value,
            Engine.Ctx(toggled, false, matches, Speed()), Engine.Effects(elements, queue));
        }
        ok := Toggle(false, matches);
      }
    }

    /** `toggle(motion)`: for each descriptor in order, resolve its variant, pick `from`
        when toggled and `to` otherwise, apply `before` now, then either apply `val`
        now (no motion) or queue a callback holding this iteration's handle, `val` and
        record with delay `delayFactor * speed`; finally flip `toggled` once. A thrown
        error (`ok` false) stops the loop and skips the flip. */
    method Toggle(motion: bool, matches: string -> bool) returns (ok: bool)
      requires Valid()
      modifies this`elements, this`queue, this`toggled
      ensures Valid()
      ensures options == old(options) && config == old(config) && reverse == old(reverse)
      ensures loadPending == old(loadPending) && onLoadCalls == old(onLoadCalls) && onToggleCalls == old(onToggleCalls)
      ensures var (o, flip) := Engine.Toggle(config, Engine.Ctx(old(toggled), motion, matches, Speed()),
                                             Engine.Effects(old(elements), old(queue)));
        elements == o.effects.store && queue == o.effects.queue && ok == o.ok
        && toggled == (old(toggled) != flip)
    {
      if config.None? {
        return false;
      }
      if config.value.animation.None? {
        return true;
      }
      ok := PlayAll(config.value.animation.value, motion, matches, Speed());
      if ok {
        toggled := !toggled;
      }
    }

    /** The loop of `toggle` over the descriptors, in order; it stops at the first
        iteration that throws, with the effects of the earlier ones kept. */
    method PlayAll(anims: seq<ElementAnimation>, motion: bool, matches: string -> bool, speed: int) returns (ok: bool)
      requires Valid()
      modifies this`elements, this`queue
      ensures Valid()
      ensures var o := Engine.Run(anims, Engine.Ctx(toggled, motion, matches, speed), Engine.Effects(old(elements), old(queue)));
        elements == o.effects.store && queue == o.effects.queue && ok == o.ok
    {
      ghost var ctx := Engine.Ctx(toggled, motion, matches, speed);
      ghost var whole := Engine.Run(anims, ctx, Engine.Effects(elements, queue));
      var i := 0;
      while i < |anims|
        invariant 0 <= i <= |anims|
        invariant Valid()
        invariant Engine.Run(anims[i..], ctx, Engine.Effects(elements, queue)) == whole
      {
        ghost var before := Engine.Effects(elements, queue);
        assert anims[i..][0] == anims[i] && anims[i..][1..] == anims[i + 1..];
        Engine.RunUnfold(anims[i..], ctx, before);
        var stepped := Play(anims[i], motion, matches, speed);
        if !stepped {
          assert whole == Engine.Outcome(before, false);
          return false;
        }
        assert Engine.Run(anims[i + 1..], ctx, Engine.Effects(elements, queue)) == whole;
        i := i + 1;
      }
      assert anims[i..] == [];
      assert whole == Engine.Outcome(Engine.Effects(elements, queue), true);
      return true;
    }

    /** One iteration of the loop in `toggle`, for descriptor `a`; `ok` is false when
        it throws, and then it has changed nothing. */
    method Play(a: ElementAnimation, motion: bool, matches: string -> bool, speed: int) returns (ok: bool)
      requires Valid()
      modifies this`elements, this`queue
      ensures Valid()
      ensures var r := Engine.Step(a, Engine.Ctx(toggled, motion, matches, speed), Engine.Effects(old(elements), old(queue)));
        && ok == r.Some?
        && (ok ==> elements == r.value.store && queue == r.value.queue)
        && (!ok ==> elements == old(elements) && queue == old(queue))
    {
      var props: Option<PropertySet>;
      match a.anim {
        case Direct(p) => props := Some(p);
        case MediaMatch(es) => props := GetMediaMatchedProperties(es, matches);
      }
      if props.None? {
        return false;
      }
      var rec := if toggled then props.value.from else props.value.to;
      var timeout := if motion && rec.delayFactor != 0 then rec.delayFactor else 0;
      var handle := if a.el in elements then Some(a.el) else None;
      if rec.before.Some? {
        if handle.None? {
          return false;
        }
        elements := SetAttrs(elements, a.el, rec.before.value);
      }
      if motion {
        queue := queue + [Deferred(timeout * speed, handle, rec.val, rec)];
      } else {
        if handle.None? {
          return false;
        }
        elements := SetAttrs(elements, a.el, rec.val);
      }
      return true;
    }

    /** The click or hover handler once it has recognised a trigger: a motion toggle,
        then `onToggle` (not reached when the toggle throws). */
    method Trigger(matches: string -> bool) returns (ok: bool)
      requires Valid()
      modifies this
      ensures Valid()
      ensures options == old(options) && config == old(config) && reverse == old(reverse)
      ensures loadPending == old(loadPending) && onLoadCalls == old(onLoadCalls)
      ensures onToggleCalls == old(onToggleCalls) + (if ok then 1 else 0)
      ensures var (o, flip) := Engine.Toggle(config, Engine.Ctx(old(toggled), true, matches, Speed()),
                                             Engine.Effects(old(elements), old(queue)));
        elements == o.effects.store && queue == o.effects.queue && ok == o.ok
        && toggled == (old(toggled) != flip)
    {
      ok := Toggle(true, matches);
      if ok {
        onToggleCalls := onToggleCalls + 1;
      }
    }

    /** The event loop runs the pending callback at index `i`. */
    method RunTask(i: nat)
      requires Valid() && i < |queue|
      modifies this
      ensures Valid()
      ensures options == old(options) && config == old(config) && reverse == old(reverse) && toggled == old(toggled)
      ensures loadPending == old(loadPending) && onLoadCalls == old(onLoadCalls) && onToggleCalls == old(onToggleCalls)
      ensures Engine.Effects(elements, queue) == Engine.RunTask(Engine.Effects(old(elements), old(queue)), i)
      ensures var t := old(queue)[i];
        t.Deferred? && t.target.Some? ==>
          && t.target.value in elements
          && elements[t.target.value] == old(elements)[t.target.value] + t.val + (if t.rec.after.Some? then t.rec.after.value else map[])
      ensures var t := old(queue)[i];
        t.Chained? ==> t.el in elements && elements[t.el] == old(elements)[t.el] + t.goal
    {
      var t := queue[i];
      assert t in queue;
      if t.Deferred? && t.target.Some? {
        Engine.DeferredEffect(Engine.Effects(elements, queue), i);
      }
      queue := queue[..i] + queue[i + 1..];
      match t {
        case Deferred(_, target, val, rec) =>
          if target.Some? && target.value in elements {
            var sel := target.value;
            elements := SetAttrs(elements, sel, val);
            if rec.after.Some? {
              elements := SetAttrs(elements, sel, rec.after.value);
            }
            if rec.animAfter.Some? {
              queue := queue + [Chained(sel, rec.animAfter.value)];
            }
          }
        case Chained(sel, goal) =>
          if sel in elements {
            elements := SetAttrs(elements, sel, goal);
          }
      }
    }
  }
}
