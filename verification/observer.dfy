/** The viewport observer's callback. The host hands it a batch of entries,
    one per observed element whose visibility changed; the callback walks the
    batch in order and, for each entry that is intersecting, marks the target
    for its entrance animation and makes it the active section. The host's
    geometry (threshold and margins) decides `isIntersecting` and is not
    modelled.
 */
module Observer {
  import opened Config

  /** One intersection entry: the target element's `id` and whether it is
      intersecting. */
  datatype Entry = Entry(targetId: string, isIntersecting: bool)

  /** The page state the callback writes: the active section id, and the ids
      of the elements that carry the entrance-animation class. */
  datatype ObserverState = ObserverState(activeSection: string, animated: set<string>)

  /** On mount no section is active and nothing has been animated. */
  const Initial: ObserverState := ObserverState("", {})

  /** The effect of one entry. Adding the class to an element that already
      has it is a no-op, which the set union captures. */
  function Step(st: ObserverState, e: Entry): (r: ObserverState)
    ensures e.isIntersecting ==> r.activeSection == e.targetId && e.targetId in r.animated
    ensures !e.isIntersecting ==> r == st
    ensures st.animated <= r.animated <= st.animated + {e.targetId}
  {
    if e.isIntersecting then ObserverState(e.targetId, st.animated + {e.targetId})
    else st
  }

  /** The whole batch, entries processed from first to last. The page sets
      its active section once per intersecting entry; within one callback
      the last of those writes is the one that remains. */
  function ProcessBatch(st: ObserverState, es: seq<Entry>): (r: ObserverState)
    ensures st.animated <= r.animated
    ensures forall x :: x in r.animated ==>
              x in st.animated || exists i :: 0 <= i < |es| && es[i].isIntersecting && es[i].targetId == x
    ensures r.activeSection == st.activeSection
            || exists i :: 0 <= i < |es| && es[i].isIntersecting && es[i].targetId == r.activeSection
    ensures (forall i :: 0 <= i < |es| ==> !es[i].isIntersecting) ==> r == st
    decreases |es|
  {
    if |es| == 0 then st
    else
      var r := ProcessBatch(Step(st, es[0]), es[1..]);
      assert forall i :: 0 <= i < |es| - 1 ==> es[1..][i] == es[i + 1];
      r
  }

  /** The id of the last intersecting entry of the batch, found by scanning
      from the end. */
  function LastIntersecting(es: seq<Entry>): (r: Option<string>)
    ensures r.Some? <==> exists i :: 0 <= i < |es| && es[i].isIntersecting
    ensures r.Some? ==> exists i :: 0 <= i < |es| && es[i].isIntersecting
                                    && es[i].targetId == r.value
                                    && forall j :: i < j < |es| ==> !es[j].isIntersecting
    decreases |es|
  {
    if |es| == 0 then None
    else if es[|es| - 1].isIntersecting then Some(es[|es| - 1].targetId)
    else
      var r := LastIntersecting(es[..|es| - 1]);
      assert forall i :: 0 <= i < |es| - 1 ==> es[..|es| - 1][i] == es[i];
      r
  }

  /** The ids of all intersecting entries of the batch. */
  function IntersectingIds(es: seq<Entry>): set<string> {
    set i | 0 <= i < |es| && es[i].isIntersecting :: es[i].targetId
  }

  /** Processing a batch with one more entry at the end is one more step. */
  lemma {:induction false} ProcessBatchSnoc(st: ObserverState, es: seq<Entry>, e: Entry)
    ensures ProcessBatch(st, es + [e]) == Step(ProcessBatch(st, es), e)
    decreases |es|
  {
    if |es| == 0 {
      assert ([e])[1..] == [];
    } else {
      assert (es + [e])[1..] == es[1..] + [e];
      ProcessBatchSnoc(Step(st, es[0]), es[1..], e);
    }
  }

  /** After a batch the active section is the target of the last
      intersecting entry, or is unchanged when no entry intersects. */
  lemma {:induction false} BatchActiveSection(st: ObserverState, es: seq<Entry>)
    ensures ProcessBatch(st, es).activeSection
            == match LastIntersecting(es)
               case Some(id) => id
               case None => st.activeSection
    decreases |es|
  {
    if |es| > 0 {
      var init := es[..|es| - 1];
      assert es == init + [es[|es| - 1]];
      ProcessBatchSnoc(st, init, es[|es| - 1]);
      BatchActiveSection(st, init);
    }
  }

  /** After a batch the animated set is the old one plus every intersecting
      target. */
  lemma {:induction false} BatchAnimated(st: ObserverState, es: seq<Entry>)
    ensures ProcessBatch(st, es).animated == st.animated + IntersectingIds(es)
    decreases |es|
  {
    if |es| > 0 {
      var init := es[..|es| - 1];
      var last := es[|es| - 1];
      assert es == init + [last];
      ProcessBatchSnoc(st, init, last);
      BatchAnimated(st, init);
      assert IntersectingIds(es)
             == IntersectingIds(init) + (if last.isIntersecting then {last.targetId} else {}) by {
        forall x | x in IntersectingIds(es)
          ensures x in IntersectingIds(init) || (last.isIntersecting && x == last.targetId)
        {
          var i :| 0 <= i < |es| && es[i].isIntersecting && es[i].targetId == x;
          if i < |es| - 1 {
            assert init[i] == es[i];
          }
        }
        forall x | x in IntersectingIds(init) ensures x in IntersectingIds(es) {
          var i :| 0 <= i < |init| && init[i].isIntersecting && init[i].targetId == x;
          assert es[i] == init[i];
        }
        if last.isIntersecting {
          assert es[|es| - 1] == last;
        }
      }
    }
  }

  /** When some entry intersects, the active section afterwards is the
      target of an intersecting entry. */
  lemma {:induction false} ActiveIsIntersectingTarget(st: ObserverState, es: seq<Entry>)
    requires exists i :: 0 <= i < |es| && es[i].isIntersecting
    ensures exists j :: 0 <= j < |es| && es[j].isIntersecting
                        && es[j].targetId == ProcessBatch(st, es).activeSection
  {
    BatchActiveSection(st, es);
  }

  /** A batch whose intersecting targets are all animated already leaves the
      animated set as it was. */
  lemma {:induction false} ReanimationIsNoOp(st: ObserverState, es: seq<Entry>)
    requires forall i :: 0 <= i < |es| && es[i].isIntersecting ==> es[i].targetId in st.animated
    ensures ProcessBatch(st, es).animated == st.animated
  {
    BatchAnimated(st, es);
  }

  /** Delivering the same batch twice has the effect of delivering it once. */
  lemma {:induction false} BatchIdempotent(st: ObserverState, es: seq<Entry>)
    ensures ProcessBatch(ProcessBatch(st, es), es) == ProcessBatch(st, es)
  {
    var once := ProcessBatch(st, es);
    BatchActiveSection(st, es);
    BatchActiveSection(once, es);
    BatchAnimated(st, es);
    BatchAnimated(once, es);
  }

  /** When every target belongs to `ids`, the active section stays either
      unset or one of `ids`. */
  lemma {:induction false} ActiveStaysAmong(st: ObserverState, es: seq<Entry>, ids: set<string>)
    requires st.activeSection == "" || st.activeSection in ids
    requires forall i :: 0 <= i < |es| ==> es[i].targetId in ids
    ensures ProcessBatch(st, es).activeSection == ""
            || ProcessBatch(st, es).activeSection in ids
  {
    BatchActiveSection(st, es);
  }
}
