/** The variant resolver: which entry of a `mediaMatch` list is active, given the
    current answers of the media-query test `matches`. */
module Resolver {
  import opened Types

  /** An entry is eligible when it has a condition and the media test accepts it. */
  predicate Eligible(e: MediaEntry, matches: string -> bool)
    ensures e.condition == "" ==> !Eligible(e, matches)
    ensures Eligible(e, matches) ==> matches(e.condition)
  {
    e.condition != "" && matches(e.condition)
  }

  /** The first eligible entry at or after index `i`, if there is one. */
  function FirstEligibleFrom(entries: seq<MediaEntry>, matches: string -> bool, i: nat): (r: Option<nat>)
    requires i <= |entries|
    ensures r.Some? ==> i <= r.value < |entries| && Eligible(entries[r.value], matches)
    ensures r.Some? ==> forall j :: i <= j < r.value ==> !Eligible(entries[j], matches)
    ensures r.None? ==> forall j :: i <= j < |entries| ==> !Eligible(entries[j], matches)
    decreases |entries| - i
  {
    if i == |entries| then None
    else if Eligible(entries[i], matches) then Some(i)
    else FirstEligibleFrom(entries, matches, i + 1)
  }

  /** Index of the active entry: the first eligible one, else entry 0; `None` only
      for an empty list (whose entry 0 is undefined). */
  function SelectedIndex(entries: seq<MediaEntry>, matches: string -> bool): (r: Option<nat>)
    ensures r.Some? <==> |entries| > 0
    ensures r.Some? ==> r.value < |entries|
  {
    match FirstEligibleFrom(entries, matches, 0)
    case Some(k) => Some(k)
    case None => if |entries| > 0 then Some(0) else None
  }

  /** The active property set of `animProperties`: a direct set is used unchanged. */
  function Resolve(ap: AnimProperties, matches: string -> bool): (r: Option<PropertySet>)
    ensures ap.Direct? ==> r == Some(ap.props)
    ensures ap.MediaMatch? ==> (r.None? <==> |ap.entries| == 0)
  {
    match ap
    case Direct(p) => Some(p)
    case MediaMatch(es) =>
      match SelectedIndex(es, matches)
      case Some(k) => Some(es[k].props)
      case None => None
  }

  /** The scan of `getMediaMatchedProperties`: in order, return the first entry whose
      condition is present and matches; after the loop, entry 0 (`None` when the
      list is empty, where the source yields `undefined`). */
  method GetMediaMatchedProperties(entries: seq<MediaEntry>, matches: string -> bool)
    returns (r: Option<PropertySet>)
    ensures r == Resolve(MediaMatch(entries), matches)
    ensures r.Some? ==> exists k :: 0 <= k < |entries| && r.value == entries[k].props
  {
    var i := 0;
    while i < |entries|
      invariant 0 <= i <= |entries|
      invariant FirstEligibleFrom(entries, matches, 0) == FirstEligibleFrom(entries, matches, i)
    {
      if entries[i].condition != "" && matches(entries[i].condition) {
        return Some(entries[i].props);
      }
      i := i + 1;
    }
    if |entries| == 0 {
      return None;
    }
    return Some(entries[0].props);
  }

  /** The first eligible entry is chosen, whatever follows it. */
  lemma FirstEligibleWins(entries: seq<MediaEntry>, matches: string -> bool, k: nat)
    requires k < |entries| && Eligible(entries[k], matches)
    requires forall j :: 0 <= j < k ==> !Eligible(entries[j], matches)
    ensures SelectedIndex(entries, matches) == Some(k)
  {
  }

  /** With no eligible entry the fallback is entry 0, even when entry 0 has a condition. */
  lemma FallbackToFirst(entries: seq<MediaEntry>, matches: string -> bool)
    requires |entries| > 0
    requires forall j :: 0 <= j < |entries| ==> !Eligible(entries[j], matches)
    ensures SelectedIndex(entries, matches) == Some(0)
    ensures Resolve(MediaMatch(entries), matches) == Some(entries[0].props)
  {
  }

  /** Every choice is either the first eligible entry or the fallback to entry 0. */
  lemma SelectedCharacterised(entries: seq<MediaEntry>, matches: string -> bool, k: nat)
    requires SelectedIndex(entries, matches) == Some(k)
    ensures k < |entries|
    ensures (Eligible(entries[k], matches) && forall j :: 0 <= j < k ==> !Eligible(entries[j], matches))
         || (k == 0 && forall j :: 0 <= j < |entries| ==> !Eligible(entries[j], matches))
  {
  }

  /** An entry after index 0 without a condition is never chosen. */
  lemma UnconditionedNeverChosen(entries: seq<MediaEntry>, matches: string -> bool, k: nat)
    requires 0 < k < |entries| && entries[k].condition == ""
    ensures SelectedIndex(entries, matches) != Some(k)
  {
  }

  /** The scan depends on the conditions only, not on the property sets. */
  lemma {:induction false} ScanIgnoresProps(xs: seq<MediaEntry>, ys: seq<MediaEntry>, matches: string -> bool, i: nat)
    requires |xs| == |ys| && i <= |xs|
    requires forall j :: 0 <= j < |xs| ==> xs[j].condition == ys[j].condition
    ensures FirstEligibleFrom(xs, matches, i) == FirstEligibleFrom(ys, matches, i)
    decreases |xs| - i
  {
    if i < |xs| {
      ScanIgnoresProps(xs, ys, matches, i + 1);
    }
  }

  /** Hence so does the choice of the active entry. */
  lemma SelectionIgnoresProps(xs: seq<MediaEntry>, ys: seq<MediaEntry>, matches: string -> bool)
    requires |xs| == |ys|
    requires forall j :: 0 <= j < |xs| ==> xs[j].condition == ys[j].condition
    ensures SelectedIndex(xs, matches) == SelectedIndex(ys, matches)
  {
    ScanIgnoresProps(xs, ys, matches, 0);
  }
}
