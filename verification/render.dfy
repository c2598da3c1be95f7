/** The sections the page paints. `intro` and `connect` are always painted;
    each of the four optional sections is guarded by a presence flag. A
    painted section registers itself in a fixed slot of the page's array of
    section elements, and on mount the page hands the filled slots to the
    observer in slot order.
 */
module Render {
  import opened Config
  import opened Resolver

  /** The array of section elements after a render: slot `k` holds the
      section of slot `k` when its guard holds and is empty otherwise. */
  function SectionsRef(f: Flags): (refs: seq<Option<SectionId>>)
    ensures |refs| == |Canonical|
    ensures forall k :: 0 <= k < |refs| && refs[k].Some? ==> Slot(refs[k].value) == k
    ensures refs[0] == Some(Intro) && refs[5] == Some(Connect)
  {
    [ Some(Intro),
      if f.hasProjects then Some(Projects) else None,
      if f.hasExperience then Some(Experience) else None,
      if f.hasEducation then Some(Education) else None,
      if HasAnyStats(f) then Some(Stats) else None,
      Some(Connect) ]
  }

  /** The indices of the filled slots from slot `k` on: each is a filled
      slot at or after `k`, they strictly increase, and none is missing. */
  function FilledFrom(refs: seq<Option<SectionId>>, k: nat): (r: seq<nat>)
    requires k <= |refs|
    ensures forall i :: 0 <= i < |r| ==> k <= r[i] < |refs| && refs[r[i]].Some?
    ensures forall i, j :: 0 <= i < j < |r| ==> r[i] < r[j]
    ensures forall m :: k <= m < |refs| && refs[m].Some? ==> m in r
    decreases |refs| - k
  {
    if k == |refs| then []
    else if refs[k].Some? then [k] + FilledFrom(refs, k + 1)
    else FilledFrom(refs, k + 1)
  }

  /** The sections the `forEach` over the slots hands to the observer from
      slot `k` on, skipping empty slots: the `i`-th is the content of the
      `i`-th filled slot. */
  function ObservedFrom(refs: seq<Option<SectionId>>, k: nat): (r: seq<SectionId>)
    requires k <= |refs|
    ensures |r| == |FilledFrom(refs, k)|
    ensures forall i :: 0 <= i < |r| ==> refs[FilledFrom(refs, k)[i]] == Some(r[i])
    decreases |refs| - k
  {
    if k == |refs| then []
    else
      match refs[k]
      case Some(x) => [x] + ObservedFrom(refs, k + 1)
      case None => ObservedFrom(refs, k + 1)
  }

  /** The sections the observer is asked to watch: the filled slots, in
      slot order, each once. */
  function Observed(refs: seq<Option<SectionId>>): (r: seq<SectionId>)
    ensures |r| == |FilledFrom(refs, 0)|
    ensures forall i :: 0 <= i < |r| ==> refs[FilledFrom(refs, 0)[i]] == Some(r[i])
  {
    ObservedFrom(refs, 0)
  }

  /** A section is observed exactly when some slot holds it. */
  lemma {:induction false} ObservedMembership(refs: seq<Option<SectionId>>)
    ensures forall x :: x in Observed(refs) <==> Some(x) in refs
  {
    var r := Observed(refs);
    var slots := FilledFrom(refs, 0);
    forall x | Some(x) in refs ensures x in r {
      var m :| 0 <= m < |refs| && refs[m] == Some(x);
      var i :| 0 <= i < |slots| && slots[i] == m;
      assert refs[slots[i]] == Some(r[i]);
    }
    forall x | x in r ensures Some(x) in refs {
      var i :| 0 <= i < |r| && r[i] == x;
      assert refs[slots[i]] == Some(x);
    }
  }

  /** Each slot is filled exactly when the section it belongs to is shown. */
  lemma {:induction false} SlotsFollowShown(f: Flags)
    ensures forall k :: 0 <= k < |Canonical| ==>
              SectionsRef(f)[k] == if Shown(f, Canonical[k]) then Some(Canonical[k]) else None
  {
  }

  /** Walking slots guarded by `Shown` from slot `k` on yields the shown ids
      from `k` on, in slot order. */
  lemma {:induction false} ObservedFromGuardedSlots(f: Flags, ids: seq<SectionId>, refs: seq<Option<SectionId>>, k: nat)
    requires |refs| == |ids| && k <= |ids|
    requires forall m :: 0 <= m < |ids| ==>
               refs[m] == if Shown(f, ids[m]) then Some(ids[m]) else None
    ensures ObservedFrom(refs, k) == Keep(f, ids[k..])
    decreases |ids| - k
  {
    if k < |ids| {
      ObservedFromGuardedSlots(f, ids, refs, k + 1);
      assert ids[k..] == [ids[k]] + ids[k + 1..];
      KeepStep(f, ids[k], ids[k + 1..]);
    }
  }

  /** Walking slots guarded by `Shown` yields the shown ids in slot order. */
  lemma {:induction false} ObservedOfGuardedSlots(f: Flags, ids: seq<SectionId>, refs: seq<Option<SectionId>>)
    requires |refs| == |ids|
    requires forall k :: 0 <= k < |ids| ==>
               refs[k] == if Shown(f, ids[k]) then Some(ids[k]) else None
    ensures Observed(refs) == Keep(f, ids)
  {
    ObservedFromGuardedSlots(f, ids, refs, 0);
    assert ids[0..] == ids;
  }

  /** The sections observed are exactly the navigation list, in the same order. */
  lemma {:induction false} ObservedIsNav(f: Flags)
    ensures Observed(SectionsRef(f)) == NavSections(f)
  {
    SlotsFollowShown(f);
    ObservedOfGuardedSlots(f, Canonical, SectionsRef(f));
    NavIsFilteredPageOrder(f);
  }

  /** A section is painted exactly when it is navigable. */
  lemma {:induction false} RenderedIffNavigable(f: Flags)
    ensures forall id :: Some(id) in SectionsRef(f) <==> id in NavSections(f)
  {
    ObservedIsNav(f);
    ObservedMembership(SectionsRef(f));
  }

  /** Walking the navigation list visits strictly increasing filled slots,
      each holding the section the button names. */
  lemma {:induction false} NavSlotsIncrease(f: Flags)
    ensures forall i :: 0 <= i < |NavSections(f)| ==>
              SectionsRef(f)[Slot(NavSections(f)[i])] == Some(NavSections(f)[i])
    ensures forall i, j :: 0 <= i < j < |NavSections(f)| ==>
              Slot(NavSections(f)[i]) < Slot(NavSections(f)[j])
  {
    NavSectionsInPageOrder(f);
    SlotsFollowShown(f);
    RenderedIffNavigable(f);
    var nav := NavSections(f);
    forall i | 0 <= i < |nav|
      ensures SectionsRef(f)[Slot(nav[i])] == Some(nav[i])
    {
      assert nav[i] in nav;
      assert Canonical[Slot(nav[i])] == nav[i];
    }
  }

  /** The GitHub card inside the stats section (and the GitHub summary in
      the intro) is guarded by the flag and the record's presence. */
  predicate GithubCardShown(c: PortfolioConfig) {
    Resolve(c).hasGithubStats && c.githubStats.Some?
  }

  predicate LeetcodeCardShown(c: PortfolioConfig) {
    Resolve(c).hasLeetcodeStats && c.leetcodeStats.Some?
  }

  /** The stats section is painted exactly when at least one of its cards is,
      so it is never an empty frame. */
  lemma {:induction false} StatsSectionNeverEmpty(c: PortfolioConfig)
    ensures SectionsRef(Resolve(c))[Slot(Stats)].Some?
            <==> GithubCardShown(c) || LeetcodeCardShown(c)
  {
  }
}
