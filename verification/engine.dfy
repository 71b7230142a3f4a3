/** What one `toggle` pass and one queued callback do, as functions of the state
    they start from, and the properties of both. `Icons.Icon.Toggle` and
    `Icons.Icon.RunTask` are proved to follow these functions. */
module Engine {
  import opened Types
  import opened Resolver

  /** The part of an icon's state a toggle changes besides `toggled`. */
  datatype Effects = Effects(store: Store, queue: seq<Task>)

  /** `ok` is false when the pass stopped on a thrown error; `effects` then holds
      what the descriptors before the failing one already did. */
  datatype Outcome = Outcome(effects: Effects, ok: bool)

  /** What a pass reads: the state before the flip, the motion flag, the media test
      and the `speed` option. */
  datatype Ctx = Ctx(toggled: bool, motion: bool, matches: string -> bool, speed: int)

  /** The direction record played for one descriptor: `from` when toggled, else `to`;
      `None` when the variant resolver yields nothing. */
  function Chosen(a: ElementAnimation, ctx: Ctx): (r: Option<Direction>)
    ensures r.None? <==> Resolve(a.anim, ctx.matches).None?
    ensures r.Some? ==> r.value == (if ctx.toggled then Resolve(a.anim, ctx.matches).value.from
                                    else Resolve(a.anim, ctx.matches).value.to)
  {
    match Resolve(a.anim, ctx.matches)
    case None => None
    case Some(ps) => Some(if ctx.toggled then ps.from else ps.to)
  }

  /** The stagger of a motion toggle, in the time unit of `speed`. */
  function Delay(rec: Direction, ctx: Ctx): (d: int)
    ensures !ctx.motion || rec.delayFactor == 0 ==> d == 0
    ensures ctx.motion && rec.delayFactor != 0 ==> d == rec.delayFactor * ctx.speed
  {
    (if ctx.motion && rec.delayFactor != 0 then rec.delayFactor else 0) * ctx.speed
  }

  /** The callback queued for one descriptor of a motion toggle. */
  function TaskFor(a: ElementAnimation, rec: Direction, store: Store, ctx: Ctx): (t: Task)
    ensures t.Deferred? && t.val == rec.val && t.rec == rec && t.delay == Delay(rec, ctx)
    ensures t.target.Some? <==> a.el in store
    ensures t.target.Some? ==> t.target.value == a.el
  {
    Deferred(Delay(rec, ctx), if a.el in store then Some(a.el) else None, rec.val, rec)
  }

  /** The synchronous part of one loop iteration. `None` when it throws: the resolver
      found no entry, or an attribute map is applied to a selector that matches no
      element (`before` always, `val` when not in motion). */
  function Step(a: ElementAnimation, ctx: Ctx, e: Effects): (r: Option<Effects>)
    ensures r.Some? ==> r.value.store.Keys == e.store.Keys
    ensures r.Some? && !ctx.motion ==> r.value.queue == e.queue
    ensures r.Some? && ctx.motion ==> |r.value.queue| == |e.queue| + 1 && r.value.queue[..|e.queue|] == e.queue
  {
    match Chosen(a, ctx)
    case None => None
    case Some(rec) =>
      if a.el !in e.store && (rec.before.Some? || !ctx.motion) then None
      else
        var s1 := if rec.before.Some? then SetAttrs(e.store, a.el, rec.before.value) else e.store;
        if ctx.motion then Some(Effects(s1, e.queue + [TaskFor(a, rec, e.store, ctx)]))
        else Some(Effects(SetAttrs(s1, a.el, rec.val), e.queue))
  }

  /** What one iteration does: when it throws; that it touches only its own
      element; without motion `val` wins over `before`, which wins over the old
      attributes, and nothing is queued; in motion only `before` is applied and
      exactly one callback is queued. */
  lemma StepEffect(a: ElementAnimation, ctx: Ctx, e: Effects)
    ensures Step(a, ctx, e).None? <==>
      Chosen(a, ctx).None? || (a.el !in e.store && (Chosen(a, ctx).value.before.Some? || !ctx.motion))
    ensures var r := Step(a, ctx, e);
      r.Some? ==>
        && r.value.store.Keys == e.store.Keys
        && forall s :: s in e.store && s != a.el ==> r.value.store[s] == e.store[s]
    ensures var r := Step(a, ctx, e);
      r.Some? && !ctx.motion ==>
        var rec := Chosen(a, ctx).value;
        var after := r.value.store[a.el];
        && r.value.queue == e.queue
        && (forall k :: k in rec.val ==> k in after && after[k] == rec.val[k])
        && (rec.before.Some? ==> forall k :: k in rec.before.value && k !in rec.val ==>
              k in after && after[k] == rec.before.value[k])
        && (forall k :: k in e.store[a.el] && k !in rec.val && (rec.before.None? || k !in rec.before.value) ==>
              k in after && after[k] == e.store[a.el][k])
        && after == (if rec.before.Some? then e.store[a.el] + rec.before.value else e.store[a.el]) + rec.val
    ensures var r := Step(a, ctx, e);
      r.Some? && ctx.motion ==>
        var rec := Chosen(a, ctx).value;
        && r.value.queue == e.queue + [TaskFor(a, rec, e.store, ctx)]
        && (a.el in e.store && rec.before.None? ==> r.value.store == e.store)
        && (rec.before.Some? ==> r.value.store[a.el] == e.store[a.el] + rec.before.value)
  {
  }

  /** The loop of `toggle` over the descriptors, in order, stopping at the first throw. */
  function Run(anims: seq<ElementAnimation>, ctx: Ctx, e: Effects): (r: Outcome)
    ensures |e.queue| <= |r.effects.queue| <= |e.queue| + (if ctx.motion then |anims| else 0)
    ensures r.effects.queue[..|e.queue|] == e.queue
    ensures r.effects.store.Keys == e.store.Keys
    decreases |anims|
  {
    if anims == [] then Outcome(e, true)
    else match Step(anims[0], ctx, e)
      case None => Outcome(e, false)
      case Some(e1) => Run(anims[1..], ctx, e1)
  }

  /** One step of the loop: the first descriptor either throws or hands its effects
      to the rest of the list. */
  lemma RunUnfold(anims: seq<ElementAnimation>, ctx: Ctx, e: Effects)
    requires anims != []
    ensures Step(anims[0], ctx, e).None? ==> Run(anims, ctx, e) == Outcome(e, false)
    ensures Step(anims[0], ctx, e).Some? ==> Run(anims, ctx, e) == Run(anims[1..], ctx, Step(anims[0], ctx, e).value)
  {
  }

  /** A whole `toggle` call. A missing configuration throws; a missing animation list
      does nothing. The second component says whether `toggled` flips. */
  function Toggle(config: Option<IconConfig>, ctx: Ctx, e: Effects): (r: (Outcome, bool))
    ensures r.1 <==> config.Some? && config.value.animation.Some? && r.0.ok
    ensures config.None? ==> r.0 == Outcome(e, false)
    ensures config.Some? && config.value.animation.None? ==> r.0 == Outcome(e, true)
  {
    match config
    case None => (Outcome(e, false), false)
    case Some(c) =>
      match c.animation
      case None => (Outcome(e, true), false)
      case Some(anims) =>
        var o := Run(anims, ctx, e);
        (o, o.ok)
  }

  /** Running the callback at index `i`: it leaves the queue; a `Deferred` one animates
      its element to `val`, then applies `after` and starts the animation to
      `animAfter`; a `Chained` one animates to its goal. A null handle throws inside
      the callback and changes nothing. */
  function RunTask(e: Effects, i: nat): (r: Effects)
    requires i < |e.queue|
    ensures r.store.Keys == e.store.Keys
    ensures |e.queue| - 1 <= |r.queue| <= |e.queue|
    ensures r.queue[..|e.queue| - 1] == e.queue[..i] + e.queue[i + 1..]
    ensures e.queue[i].Chained? ==> |r.queue| == |e.queue| - 1
    ensures e.queue[i].Deferred? && e.queue[i].target.None? ==> r.store == e.store
  {
    var rest := e.queue[..i] + e.queue[i + 1..];
    match e.queue[i]
    case Deferred(_, target, val, rec) =>
      if target.None? || target.value !in e.store then Effects(e.store, rest)
      else
        var sel := target.value;
        var s1 := SetAttrs(e.store, sel, val);
        var s2 := if rec.after.Some? then SetAttrs(s1, sel, rec.after.value) else s1;
        Effects(s2, rest + if rec.animAfter.Some? then [Chained(sel, rec.animAfter.value)] else [])
    case Chained(sel, goal) =>
      if sel !in e.store then Effects(e.store, rest)
      else Effects(SetAttrs(e.store, sel, goal), rest)
  }

  // ---------------------------------------------------------------------------
  // Properties of a toggle pass

  /** A toggle without motion queues nothing. */
  lemma {:induction false} NonMotionQueuesNothing(anims: seq<ElementAnimation>, ctx: Ctx, e: Effects)
    requires !ctx.motion
    ensures Run(anims, ctx, e).effects.queue == e.queue
    decreases |anims|
  {
    if anims != [] {
      match Step(anims[0], ctx, e)
      case None =>
      case Some(e1) =>
        StepEffect(anims[0], ctx, e);
        NonMotionQueuesNothing(anims[1..], ctx, e1);
    }
  }

  /** A completed motion toggle queues exactly one callback per descriptor, in
      descriptor order, each holding its own iteration's element, `val`, record and
      delay. */
  lemma {:induction false} MotionQueuesOnePerDescriptor(anims: seq<ElementAnimation>, ctx: Ctx, e: Effects)
    requires ctx.motion
    requires Run(anims, ctx, e).ok
    ensures var q := Run(anims, ctx, e).effects.queue;
      && |q| == |e.queue| + |anims|
      && q[..|e.queue|] == e.queue
      && forall k :: 0 <= k < |anims| ==>
           && Chosen(anims[k], ctx).Some?
           && var rec := Chosen(anims[k], ctx).value;
              q[|e.queue| + k] == Deferred(Delay(rec, ctx), if anims[k].el in e.store then Some(anims[k].el) else None, rec.val, rec)
    decreases |anims|
  {
    if anims != [] {
      StepEffect(anims[0], ctx, e);
      var e1 := Step(anims[0], ctx, e).value;
      MotionQueuesOnePerDescriptor(anims[1..], ctx, e1);
      var q := Run(anims, ctx, e).effects.queue;
      assert q == Run(anims[1..], ctx, e1).effects.queue;
      assert e1.queue == e.queue + [TaskFor(anims[0], Chosen(anims[0], ctx).value, e.store, ctx)];
      forall k | 0 <= k < |anims|
        ensures Chosen(anims[k], ctx).Some?
        ensures var rec := Chosen(anims[k], ctx).value;
          q[|e.queue| + k] == Deferred(Delay(rec, ctx), if anims[k].el in e.store then Some(anims[k].el) else None, rec.val, rec)
      {
        if k > 0 {
          assert anims[k] == anims[1..][k - 1];
          assert |e1.queue| + (k - 1) == |e.queue| + k;
        }
      }
    }
  }

  /** A motion toggle whose chosen records carry no `before` leaves every element's
      attributes as they were: nothing is applied synchronously. */
  lemma {:induction false} MotionWithoutBeforeKeepsStore(anims: seq<ElementAnimation>, ctx: Ctx, e: Effects)
    requires ctx.motion
    requires forall k :: 0 <= k < |anims| && Chosen(anims[k], ctx).Some? ==> Chosen(anims[k], ctx).value.before.None?
    ensures Run(anims, ctx, e).effects.store == e.store
    decreases |anims|
  {
    if anims != [] {
      match Step(anims[0], ctx, e)
      case None =>
      case Some(e1) =>
        StepEffect(anims[0], ctx, e);
        forall k | 0 <= k < |anims[1..]| && Chosen(anims[1..][k], ctx).Some?
          ensures Chosen(anims[1..][k], ctx).value.before.None?
        {
          assert anims[1..][k] == anims[k + 1];
        }
        MotionWithoutBeforeKeepsStore(anims[1..], ctx, e1);
    }
  }

  /** Without motion, after a completed pass each descriptor's `val` holds on its
      element, unless a later descriptor targets the same element. */
  lemma {:induction false} NonMotionAppliesVal(anims: seq<ElementAnimation>, ctx: Ctx, e: Effects, k: nat)
    requires !ctx.motion
    requires Run(anims, ctx, e).ok
    requires k < |anims|
    requires forall j :: k < j < |anims| ==> anims[j].el != anims[k].el
    ensures Chosen(anims[k], ctx).Some?
    ensures anims[k].el in Run(anims, ctx, e).effects.store
    ensures var v := Chosen(anims[k], ctx).value.val;
      forall key :: key in v ==>
        key in Run(anims, ctx, e).effects.store[anims[k].el] && Run(anims, ctx, e).effects.store[anims[k].el][key] == v[key]
    decreases |anims|
  {
    StepEffect(anims[0], ctx, e);
    var e1 := Step(anims[0], ctx, e).value;
    var tail := anims[1..];
    assert Run(anims, ctx, e) == Run(tail, ctx, e1);
    if k == 0 {
      UntargetedUnchanged(tail, ctx, e1, anims[0].el);
    } else {
      assert tail[k - 1] == anims[k];
      forall j | k - 1 < j < |tail| ensures tail[j].el != tail[k - 1].el {
        assert tail[j] == anims[j + 1];
      }
      NonMotionAppliesVal(tail, ctx, e1, k - 1);
    }
  }

  /** In motion, after a completed pass each descriptor's `before` holds on its
      element, unless a later descriptor targets the same element. */
  lemma {:induction false} MotionBeforeHolds(anims: seq<ElementAnimation>, ctx: Ctx, e: Effects, k: nat)
    requires ctx.motion
    requires Run(anims, ctx, e).ok
    requires k < |anims|
    requires forall j :: k < j < |anims| ==> anims[j].el != anims[k].el
    ensures Chosen(anims[k], ctx).Some?
    ensures var b := Chosen(anims[k], ctx).value.before;
      b.Some? ==>
        && anims[k].el in Run(anims, ctx, e).effects.store
        && forall key :: key in b.value ==>
             key in Run(anims, ctx, e).effects.store[anims[k].el] && Run(anims, ctx, e).effects.store[anims[k].el][key] == b.value[key]
    decreases |anims|
  {
    StepEffect(anims[0], ctx, e);
    var e1 := Step(anims[0], ctx, e).value;
    var tail := anims[1..];
    assert Run(anims, ctx, e) == Run(tail, ctx, e1);
    if k == 0 {
      if Chosen(anims[0], ctx).value.before.Some? {
        UntargetedUnchanged(tail, ctx, e1, anims[0].el);
      }
    } else {
      assert tail[k - 1] == anims[k];
      forall j | k - 1 < j < |tail| ensures tail[j].el != tail[k - 1].el {
        assert tail[j] == anims[j + 1];
      }
      MotionBeforeHolds(tail, ctx, e1, k - 1);
    }
  }

  /** An element no descriptor targets keeps its attributes. */
  lemma {:induction false} UntargetedUnchanged(anims: seq<ElementAnimation>, ctx: Ctx, e: Effects, sel: string)
    requires sel in e.store
    requires forall j :: 0 <= j < |anims| ==> anims[j].el != sel
    ensures sel in Run(anims, ctx, e).effects.store
    ensures Run(anims, ctx, e).effects.store[sel] == e.store[sel]
    decreases |anims|
  {
    if anims != [] {
      match Step(anims[0], ctx, e)
      case None =>
      case Some(e1) =>
        StepEffect(anims[0], ctx, e);
        forall j | 0 <= j < |anims[1..]| ensures anims[1..][j].el != sel {
          assert anims[1..][j] == anims[j + 1];
        }
        UntargetedUnchanged(anims[1..], ctx, e1, sel);
    }
  }

  /** Removes the motion-only phases `after` and `animAfter` from a record. */
  function DropAfter(d: Direction): (r: Direction)
    ensures r.before == d.before && r.val == d.val && r.delayFactor == d.delayFactor
    ensures r.after.None? && r.animAfter.None?
  {
    Direction(d.before, d.val, d.delayFactor, None, None)
  }

  function DropAfterProps(p: PropertySet): PropertySet {
    PropertySet(DropAfter(p.from), DropAfter(p.to))
  }

  function DropAfterAnim(a: ElementAnimation): (r: ElementAnimation)
    ensures r.el == a.el
  {
    match a.anim
    case Direct(p) => ElementAnimation(a.el, Direct(DropAfterProps(p)))
    case MediaMatch(es) =>
      ElementAnimation(a.el, MediaMatch(seq(|es|, i requires 0 <= i < |es| =>
        MediaEntry(es[i].condition, DropAfterProps(es[i].props)))))
  }

  lemma ChosenDropAfter(a: ElementAnimation, ctx: Ctx)
    ensures Chosen(DropAfterAnim(a), ctx).Some? <==> Chosen(a, ctx).Some?
    ensures Chosen(a, ctx).Some? ==> Chosen(DropAfterAnim(a), ctx).value == DropAfter(Chosen(a, ctx).value)
  {
    match a.anim
    case Direct(p) =>
    case MediaMatch(es) =>
      var ds := DropAfterAnim(a).anim.entries;
      SelectionIgnoresProps(es, ds, ctx.matches);
  }

  /** A toggle without motion never applies `after` or `animAfter`: its outcome is
      the same once they are removed from every record. */
  lemma {:induction false} NonMotionIgnoresAfter(anims: seq<ElementAnimation>, ctx: Ctx, e: Effects)
    requires !ctx.motion
    ensures Run(anims, ctx, e) == Run(seq(|anims|, i requires 0 <= i < |anims| => DropAfterAnim(anims[i])), ctx, e)
    decreases |anims|
  {
    var stripped := seq(|anims|, i requires 0 <= i < |anims| => DropAfterAnim(anims[i]));
    if anims != [] {
      ChosenDropAfter(anims[0], ctx);
      assert stripped[0] == DropAfterAnim(anims[0]);
      var tail := anims[1..];
      var strippedTail := seq(|tail|, i requires 0 <= i < |tail| => DropAfterAnim(tail[i]));
      assert stripped[1..] == strippedTail;
      match Step(anims[0], ctx, e)
      case None =>
      case Some(e1) =>
        NonMotionIgnoresAfter(tail, ctx, e1);
    }
  }

  // ---------------------------------------------------------------------------
  // Properties of a queued callback

  /** A `Deferred` callback on a live element leaves that element with `after` over
      `val` over its old attributes, touches no other element, and queues the
      `animAfter` animation exactly when there is one. */
  lemma DeferredEffect(e: Effects, i: nat)
    requires i < |e.queue| && e.queue[i].Deferred?
    requires e.queue[i].target.Some? && e.queue[i].target.value in e.store
    ensures var t := e.queue[i]; var sel := t.target.value; var r := RunTask(e, i);
      && r.store.Keys == e.store.Keys
      && (forall s :: s in e.store && s != sel ==> r.store[s] == e.store[s])
      && (t.rec.after.Some? ==> forall k :: k in t.rec.after.value ==> r.store[sel][k] == t.rec.after.value[k])
      && (forall k :: k in t.val && (t.rec.after.None? || k !in t.rec.after.value) ==> r.store[sel][k] == t.val[k])
      && (forall k :: k in e.store[sel] && k !in t.val && (t.rec.after.None? || k !in t.rec.after.value) ==>
            r.store[sel][k] == e.store[sel][k])
      && r.store[sel] == e.store[sel] + t.val + (if t.rec.after.Some? then t.rec.after.value else map[])
      && r.queue == e.queue[..i] + e.queue[i + 1..] + (if t.rec.animAfter.Some? then [Chained(sel, t.rec.animAfter.value)] else [])
  {
  }

  // ---------------------------------------------------------------------------
  // A worked case

  /** Two completed toggles, the second started from the state the first left,
      bring `toggled` back to where it was; an incomplete first toggle leaves it alone. */
  lemma TwoTogglesRestoreFlag(config: Option<IconConfig>, ctx: Ctx, e: Effects)
    ensures var (o1, flip1) := Toggle(config, ctx, e);
      var ctx2 := ctx.(toggled := ctx.toggled != flip1);
      var (o2, flip2) := Toggle(config, ctx2, o1.effects);
      && (!o1.ok ==> ctx2.toggled == ctx.toggled)
      && (o1.ok && o2.ok && config.Some? && config.value.animation.Some? ==> (ctx2.toggled != flip2) == ctx.toggled)
  {
  }

  /** One descriptor whose `to.val` sets `fill` to `#000` and whose `from.val` sets it
      to `#fff`: two toggles without motion paint black, then white again. */
  lemma FillRoundTrip(m: string -> bool, speed: int)
    ensures var black := Direction(None, map["fill" := "#000"], 0, None, None);
      var white := Direction(None, map["fill" := "#fff"], 0, None, None);
      var anims := [ElementAnimation("path", Direct(PropertySet(white, black)))];
      var first := Run(anims, Ctx(false, false, m, speed), Effects(map["path" := map[]], []));
      var second := Run(anims, Ctx(true, false, m, speed), first.effects);
      && first.ok && first.effects.store["path"]["fill"] == "#000" && first.effects.queue == []
      && second.ok && second.effects.store["path"]["fill"] == "#fff" && second.effects.queue == []
  {
    var black := Direction(None, map["fill" := "#000"], 0, None, None);
    var white := Direction(None, map["fill" := "#fff"], 0, None, None);
    var anims := [ElementAnimation("path", Direct(PropertySet(white, black)))];
    var e0 := Effects(map["path" := map[]], []);
    assert anims[1..] == [];
    StepEffect(anims[0], Ctx(false, false, m, speed), e0);
    var e1 := Step(anims[0], Ctx(false, false, m, speed), e0).value;
    StepEffect(anims[0], Ctx(true, false, m, speed), e1);
  }
}
