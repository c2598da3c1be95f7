/** The side navigation: one button per entry of the navigation list, drawn
    highlighted when its id equals the active section.
 */
module Highlight {
  import opened Resolver
  import opened Render
  import opened Observer

  /** The highlight state of each navigation button, in list order. */
  function Highlights(nav: seq<SectionId>, active: string): (r: seq<bool>)
    ensures |r| == |nav|
    ensures forall i :: 0 <= i < |nav| ==> (r[i] <==> Name(nav[i]) == active)
  {
    if |nav| == 0 then []
    else [Name(nav[0]) == active] + Highlights(nav[1..], active)
  }

  /** Distinct sections have distinct ids. */
  lemma {:induction false} NameInjective(a: SectionId, b: SectionId)
    ensures Name(a) == Name(b) ==> a == b
  {
  }

  /** No section id is empty, so the initial active section names none. */
  lemma {:induction false} NameNotEmpty(id: SectionId)
    ensures Name(id) != ""
  {
  }

  /** At most one navigation button is highlighted. */
  lemma {:induction false} AtMostOneHighlighted(f: Flags, active: string)
    ensures forall i, j :: 0 <= i < j < |NavSections(f)| ==>
              !(Highlights(NavSections(f), active)[i] && Highlights(NavSections(f), active)[j])
  {
    var nav := NavSections(f);
    NavSectionsInPageOrder(f);
    forall i, j | 0 <= i < j < |nav|
      ensures !(Name(nav[i]) == active && Name(nav[j]) == active)
    {
      NameInjective(nav[i], nav[j]);
    }
  }

  /** On mount nothing is highlighted. */
  lemma {:induction false} NoneHighlightedInitially(f: Flags)
    ensures forall i :: 0 <= i < |NavSections(f)| ==>
              !Highlights(NavSections(f), Initial.activeSection)[i]
  {
    forall i | 0 <= i < |NavSections(f)|
      ensures Name(NavSections(f)[i]) != ""
    {
      NameNotEmpty(NavSections(f)[i]);
    }
  }

  /** `x` is the `id` of one of the sections the observer watches. */
  predicate IsObservedId(f: Flags, x: string) {
    exists k :: 0 <= k < |Observed(SectionsRef(f))| && Name(Observed(SectionsRef(f))[k]) == x
  }

  /** An observed id names an entry of the navigation list. */
  lemma {:induction false} ObservedIdIsNavigable(f: Flags, x: string)
    ensures IsObservedId(f, x) ==> exists k :: 0 <= k < |NavSections(f)| && Name(NavSections(f)[k]) == x
  {
    if IsObservedId(f, x) {
      var watched := Observed(SectionsRef(f));
      var k :| 0 <= k < |watched| && Name(watched[k]) == x;
      ObservedIsNav(f);
      assert Name(NavSections(f)[k]) == x;
    }
  }

  /** After any batch whose entries all target observed sections, some
      button is highlighted when some entry intersected; by
      `AtMostOneHighlighted` it is the only one. */
  lemma {:induction false} HighlightedAfterIntersection(f: Flags, st: ObserverState, es: seq<Entry>)
    requires forall i :: 0 <= i < |es| ==> IsObservedId(f, es[i].targetId)
    requires exists i :: 0 <= i < |es| && es[i].isIntersecting
    ensures var active := ProcessBatch(st, es).activeSection;
            exists i :: 0 <= i < |NavSections(f)| && Highlights(NavSections(f), active)[i]
  {
    var active := ProcessBatch(st, es).activeSection;
    ActiveIsIntersectingTarget(st, es);
    var j :| 0 <= j < |es| && es[j].isIntersecting && es[j].targetId == active;
    ObservedIdIsNavigable(f, active);
    NavigableIsHighlighted(NavSections(f), active);
  }

  /** A button whose id is the active section is highlighted. */
  lemma {:induction false} NavigableIsHighlighted(nav: seq<SectionId>, active: string)
    requires exists k :: 0 <= k < |nav| && Name(nav[k]) == active
    ensures exists i :: 0 <= i < |nav| && Highlights(nav, active)[i]
  {
    var k :| 0 <= k < |nav| && Name(nav[k]) == active;
    assert Highlights(nav, active)[k];
  }

  /** A first batch in which nothing intersects leaves every button plain. */
  lemma {:induction false} PlainWithoutIntersection(f: Flags, es: seq<Entry>)
    requires forall i :: 0 <= i < |es| ==> !es[i].isIntersecting
    ensures var active := ProcessBatch(Initial, es).activeSection;
            forall i :: 0 <= i < |NavSections(f)| ==> !Highlights(NavSections(f), active)[i]
  {
    BatchActiveSection(Initial, es);
    NoneHighlightedInitially(f);
  }
}
