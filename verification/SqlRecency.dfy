/** The order of the pool, told from the events alone: by last use, the least recently used first. */
module SqlRecency {
  import opened Options
  import opened SqlInteraction
  import opened SqlInFlight

  /** An id is used when an environment is started for it, and when a response is asked for while it is
      pooled. */
  ghost predicate Uses(before: State, e: Event, id: Id) {
    e == Started(id) || (e == Asked(id) && Has(before.pool, id))
  }

  /** The position of the last use of `id` among the events, -1 if there is none. */
  ghost function LastUse(es: seq<Event>, id: Id, most: nat): (at: int)
    ensures -1 <= at < |es|
    decreases |es|
  {
    if es == [] then -1
    else
      var front := es[..|es| - 1];
      if Uses(Run(INITIAL, front, most), es[|es| - 1], id) then |es| - 1 else LastUse(front, id, most)
  }

  /** It is a use, and no later event is. */
  lemma {:induction false} LastUseIsLast(es: seq<Event>, id: Id, most: nat, i: nat)
    requires i < |es|
    ensures Uses(Run(INITIAL, es[..i], most), es[i], id) ==> i <= LastUse(es, id, most)
    ensures i == LastUse(es, id, most) ==> Uses(Run(INITIAL, es[..i], most), es[i], id)
    decreases |es|
  {
    var front := es[..|es| - 1];
    if i < |front| {
      LastUseIsLast(front, id, most, i);
      assert front[..i] == es[..i];
    }
  }

  lemma {:induction false} RunSnoc(s: State, es: seq<Event>, e: Event, most: nat)
    ensures Run(s, es + [e], most) == Step(Run(s, es, most), e, most)
    decreases |es|
  {
    if es == [] {
      assert [e][1..] == [];
    } else {
      assert (es + [e])[1..] == es[1..] + [e];
      RunSnoc(Step(s, es[0], most), es[1..], e, most);
    }
  }

  /** Entries used earlier come before entries used later. */
  ghost predicate ByLastUse(pool: seq<Slot>, es: seq<Event>, most: nat) {
    && (forall i :: 0 <= i < |pool| ==> LastUse(es, pool[i].id, most) >= 0)
    && forall i, j :: 0 <= i < j < |pool| ==> LastUse(es, pool[i].id, most) < LastUse(es, pool[j].id, most)
  }

  lemma CutStaysOrdered(pool: seq<Slot>, id: Id, es: seq<Event>, most: nat)
    requires ByLastUse(pool, es, most) && DistinctIds(pool)
    ensures ByLastUse(Without(pool, id), es, most) && !Has(Without(pool, id), id)
  {
    var k := WithoutCuts(pool, id);
    var cut := Without(pool, id);
    hide Without, LastUse;
    if k < |pool| {
      assert forall i :: 0 <= i < |cut| ==> cut[i] == pool[if i < k then i else i + 1];
    }
  }

  /** After a use, its entry placed last is in order. */
  lemma PlacedIsOrdered(pool: seq<Slot>, slot: Slot, es: seq<Event>, e: Event, most: nat)
    requires ByLastUse(pool, es, most) && DistinctIds(pool)
    requires e == Started(slot.id) || e == Asked(slot.id)
    requires Uses(Run(INITIAL, es, most), e, slot.id)
    ensures ByLastUse(Place(pool, slot), es + [e], most)
  {
    CutStaysOrdered(pool, slot.id, es, most);
    UseMoves(es, e, most);
    var cut := Without(pool, slot.id);
    hide Without, Uses, LastUse;
    forall i | 0 <= i < |cut|
      ensures LastUse(es + [e], cut[i].id, most) == LastUse(es, cut[i].id, most)
    {
      assert cut[i].id != slot.id;
    }
  }

  /** One more event moves the last use of the id it uses, and no other. */
  lemma UseMoves(es: seq<Event>, e: Event, most: nat)
    ensures forall id ::
      LastUse(es + [e], id, most) == if Uses(Run(INITIAL, es, most), e, id) then |es| else LastUse(es, id, most)
  {
    assert (es + [e])[..|es|] == es;
  }

  lemma UnusedStaysOrdered(pool: seq<Slot>, es: seq<Event>, e: Event, most: nat)
    requires ByLastUse(pool, es, most) && forall id :: !Uses(Run(INITIAL, es, most), e, id)
    ensures ByLastUse(pool, es + [e], most)
  {
    UseMoves(es, e, most);
    hide LastUse, Uses;
  }

  lemma TailStaysOrdered(pool: seq<Slot>, n: nat, es: seq<Event>, most: nat)
    requires ByLastUse(pool, es, most) && n <= |pool|
    ensures ByLastUse(pool[n..], es, most)
  {
    hide LastUse;
  }

  lemma OpenStaysOrdered(es: seq<Event>, id: Id, most: nat)
    requires ByLastUse(Run(INITIAL, es, most).pool, es, most) && DistinctIds(Run(INITIAL, es, most).pool)
    ensures ByLastUse(Open(Run(INITIAL, es, most), id, most).pool, es + [Started(id)], most)
  {
    var s := Run(INITIAL, es, most);
    var placed := Place(s.pool, Slot(id, s.built));
    hide Run, ByLastUse, LastUse;
    PlacedIsOrdered(s.pool, Slot(id, s.built), es, Started(id), most);
    TailStaysOrdered(placed, Excess(placed, most), es + [Started(id)], most);
  }

  lemma TouchStaysOrdered(es: seq<Event>, id: Id, most: nat)
    requires ByLastUse(Run(INITIAL, es, most).pool, es, most) && DistinctIds(Run(INITIAL, es, most).pool)
    ensures ByLastUse(Touch(Run(INITIAL, es, most), id).pool, es + [Asked(id)], most)
  {
    var s := Run(INITIAL, es, most);
    hide Run, ByLastUse, LastUse;
    if Has(s.pool, id) {
      PlacedIsOrdered(s.pool, Slot(id, Find(s.pool, id).value), es, Asked(id), most);
    } else {
      UnusedStaysOrdered(s.pool, es, Asked(id), most);
    }
  }

  lemma DropStaysOrdered(es: seq<Event>, id: Id, e: Event, most: nat)
    requires ByLastUse(Run(INITIAL, es, most).pool, es, most) && DistinctIds(Run(INITIAL, es, most).pool)
    requires !e.Started? && !e.Asked?
    ensures ByLastUse(Drop(Run(INITIAL, es, most), id).pool, es + [e], most)
    ensures ByLastUse(Run(INITIAL, es, most).pool, es + [e], most)
  {
    var s := Run(INITIAL, es, most);
    hide Run, ByLastUse, LastUse;
    CutStaysOrdered(s.pool, id, es, most);
    UnusedStaysOrdered(s.pool, es, e, most);
    UnusedStaysOrdered(Without(s.pool, id), es, e, most);
  }

  lemma StepStaysOrdered(es: seq<Event>, e: Event, most: nat)
    requires ByLastUse(Run(INITIAL, es, most).pool, es, most)
    ensures ByLastUse(Step(Run(INITIAL, es, most), e, most).pool, es + [e], most)
  {
    RunKeeps(INITIAL, es, most);
    hide Run, ByLastUse, LastUse, Open, Touch, Drop;
    match e
    case Started(id) => OpenStaysOrdered(es, id, most);
    case Asked(id) => TouchStaysOrdered(es, id, most);
    case Resumed(id, out) => DropStaysOrdered(es, id, e, most);
    case Finalized(id) => DropStaysOrdered(es, id, e, most);
  }

  /** Along every run the pool is ordered by last use. */
  lemma {:induction false} RunStaysOrdered(es: seq<Event>, most: nat)
    ensures ByLastUse(Run(INITIAL, es, most).pool, es, most)
    decreases |es|
  {
    if es != [] {
      var front, e := es[..|es| - 1], es[|es| - 1];
      RunStaysOrdered(front, most);
      StepStaysOrdered(front, e, most);
      RunSnoc(INITIAL, front, e, most);
      assert front + [e] == es;
    }
  }

  /** An opening evicts a pooled entry exactly when the id is new, the pool is full and the entry is the
      one whose last use is oldest. */
  lemma EvictsLeastRecentlyUsed(es: seq<Event>, id: Id, most: nat, slot: Slot)
    requires slot in Run(INITIAL, es, most).pool && slot.id != id
    ensures slot !in Run(INITIAL, es + [Started(id)], most).pool <==>
      && !Has(Run(INITIAL, es, most).pool, id) && |Run(INITIAL, es, most).pool| == most
      && forall other | other in Run(INITIAL, es, most).pool ::
           LastUse(es, slot.id, most) <= LastUse(es, other.id, most)
  {
    var s := Run(INITIAL, es, most);
    RunKeeps(INITIAL, es, most);
    RunStaysOrdered(es, most);
    RunSnoc(INITIAL, es, Started(id), most);
    OpenFate(s, id, most, slot);
    hide Run, LastUse, Step, Inv;
    OldestIsFirst(s.pool, es, most, slot);
  }

  lemma OldestIsFirst(pool: seq<Slot>, es: seq<Event>, most: nat, slot: Slot)
    requires ByLastUse(pool, es, most) && slot in pool
    ensures pool[0] == slot <==>
      forall other | other in pool :: LastUse(es, slot.id, most) <= LastUse(es, other.id, most)
  {
    hide LastUse;
    var i :| 0 <= i < |pool| && pool[i] == slot;
    if i > 0 {
      assert pool[0] in pool;
    }
  }
}
