/** Responses in flight: what happens to the environment a response steps before the step returns. */
module SqlInFlight {
  import opened SqlInteraction

  /** A response steps the environment of the entry it found. The step runs in a thread, so the entry
      can be closed under it: by an end of its id, or as the oldest entry of a full pool when another
      id is started. */
  predicate Closes(s: State, e: Event, most: nat, slot: Slot) {
    match e
    case Started(id) => !Has(s.pool, id) && 0 < |s.pool| == most && s.pool[0] == slot
    case Asked(_) => false
    case Resumed(id, out) => Ends(out) && id == slot.id
    case Finalized(id) => id == slot.id
  }

  /** Or it can be overwritten. */
  predicate Replaces(e: Event, slot: Slot) {
    e.Started? && e.id == slot.id
  }

  lemma SlotPooled(s: State, slot: Slot)
    requires slot in s.pool
    ensures Pooled(s, slot.env) && Has(s.pool, slot.id)
  {
    var i :| 0 <= i < |s.pool| && s.pool[i] == slot;
    assert Envs(s.pool)[i] == slot.env;
  }

  lemma {:induction false} InWithout(pool: seq<Slot>, id: Id, slot: Slot)
    requires DistinctIds(pool)
    ensures slot in Without(pool, id) <==> slot in pool && slot.id != id
  {
    if pool != [] {
      assert pool == [pool[0]] + pool[1..];
      if pool[0].id != id {
        InWithout(pool[1..], id, slot);
      }
    }
  }

  lemma DropFate(s: State, id: Id, most: nat, slot: Slot)
    requires Inv(s, most) && slot in s.pool
    ensures slot in Drop(s, id).pool <==> id != slot.id
    ensures Drop(s, id).closes[slot.env] == s.closes[slot.env] + if id == slot.id then 1 else 0
  {
    InWithout(s.pool, id, slot);
  }

  lemma TouchFate(s: State, id: Id, most: nat, slot: Slot)
    requires Inv(s, most) && slot in s.pool
    ensures slot in Touch(s, id).pool && Touch(s, id).closes == s.closes
  {
    InWithout(s.pool, id, slot);
  }

  /** An opening evicts one entry at most, and only from a full pool for a new id. */
  lemma Evicted(s: State, id: Id, most: nat)
    requires Inv(s, most)
    ensures var placed := Place(s.pool, Slot(id, s.built));
      Excess(placed, most) == if !Has(s.pool, id) && |s.pool| == most then 1 else 0
    ensures !Has(s.pool, id) ==> Place(s.pool, Slot(id, s.built)) == s.pool + [Slot(id, s.built)]
  {
    var k := WithoutCuts(s.pool, id);
  }

  lemma OpenFate(s: State, id: Id, most: nat, slot: Slot)
    requires Inv(s, most) && slot in s.pool
    ensures slot in Open(s, id, most).pool <==> !Closes(s, Started(id), most, slot) && id != slot.id
    ensures Open(s, id, most).closes[slot.env] ==
      s.closes[slot.env] + if Closes(s, Started(id), most, slot) then 1 else 0
  {
    Evicted(s, id, most);
    SlotPooled(s, slot);
    assert Accounted(s, slot.env);
    var placed := Place(s.pool, Slot(id, s.built));
    if !Has(s.pool, id) && |s.pool| == most {
      assert Envs(placed[..1]) == [s.pool[0].env];
      assert placed[1..] == s.pool[1..] + [Slot(id, s.built)];
      assert s.pool == [s.pool[0]] + s.pool[1..];
    } else {
      InWithout(s.pool, id, slot);
      assert Envs(placed[..0]) == [] && placed[0..] == placed;
    }
  }

  /** What one run of the event loop does to an entry. */
  lemma SlotFate(s: State, e: Event, most: nat, slot: Slot)
    requires Inv(s, most) && slot in s.pool
    ensures slot in Step(s, e, most).pool <==> !Closes(s, e, most, slot) && !Replaces(e, slot)
    ensures Step(s, e, most).closes[slot.env] == if Closes(s, e, most, slot) then 1 else 0
  {
    SlotPooled(s, slot);
    assert Accounted(s, slot.env);
    match e
    case Started(id) => OpenFate(s, id, most, slot);
    case Asked(id) => TouchFate(s, id, most, slot);
    case Resumed(id, out) => DropFate(s, id, most, slot);
    case Finalized(id) => DropFate(s, id, most, slot);
  }

  ghost predicate ClosedAlong(s: State, es: seq<Event>, most: nat, slot: Slot)
    decreases |es|
  {
    es != [] &&
    (Closes(s, es[0], most, slot) || (!Replaces(es[0], slot) && ClosedAlong(Step(s, es[0], most), es[1..], most, slot)))
  }

  ghost predicate ReplacedAlong(s: State, es: seq<Event>, most: nat, slot: Slot)
    decreases |es|
  {
    es != [] && !Closes(s, es[0], most, slot) &&
    (Replaces(es[0], slot) || ReplacedAlong(Step(s, es[0], most), es[1..], most, slot))
  }

  /** An environment out of the pool stays out, and is closed no more. */
  lemma GoneStays(s: State, e: Event, most: nat, env: Env)
    requires Inv(s, most) && env < s.built && !Pooled(s, env)
    ensures var t := Step(s, e, most);
      env < t.built && !Pooled(t, env) && t.closes[env] == s.closes[env]
  {
    StepKeeps(s, e, most);
    LostOnlyGrows(s, e, most);
    assert Accounted(s, env) && Accounted(Step(s, e, most), env);
    assert Step(s, e, most).closes[env] >= s.closes[env];
  }

  lemma {:induction false} GoneStaysAlong(s: State, es: seq<Event>, most: nat, env: Env)
    requires Inv(s, most) && env < s.built && !Pooled(s, env)
    ensures !Pooled(Run(s, es, most), env) && Run(s, es, most).closes[env] == s.closes[env]
    decreases |es|
  {
    if es != [] {
      GoneStays(s, es[0], most, env);
      StepKeeps(s, es[0], most);
      GoneStaysAlong(Step(s, es[0], most), es[1..], most, env);
    }
  }

  /** The entry is the only one its environment can have. */
  lemma GoneWithSlot(s: State, e: Event, most: nat, slot: Slot)
    requires Inv(s, most) && slot in s.pool && slot !in Step(s, e, most).pool
    ensures slot.env < Step(s, e, most).built && !Pooled(Step(s, e, most), slot.env)
  {
    SlotFate(s, e, most, slot);
    SlotPooled(s, slot);
    StepKeeps(s, e, most);
    var t := Step(s, e, most);
    assert Accounted(s, slot.env) && Accounted(t, slot.env);
    if Replaces(e, slot) {
      assert slot.env in t.lost;
    }
  }

  /** Whatever happens while the step runs: the environment it holds is closed before it returns
      exactly when some run of the loop closes its entry, and still pooled, under the same id, exactly
      when none closes or overwrites it. */
  lemma {:induction false} HeldIsClosedIff(s: State, es: seq<Event>, most: nat, slot: Slot)
    requires Inv(s, most) && slot in s.pool
    ensures Run(s, es, most).closes[slot.env] == if ClosedAlong(s, es, most, slot) then 1 else 0
    ensures slot in Run(s, es, most).pool <==> !ClosedAlong(s, es, most, slot) && !ReplacedAlong(s, es, most, slot)
    ensures slot in Run(s, es, most).pool <==> Pooled(Run(s, es, most), slot.env)
    decreases |es|
  {
    SlotPooled(s, slot);
    if es == [] {
      assert Accounted(s, slot.env);
    } else {
      var t := Step(s, es[0], most);
      SlotFate(s, es[0], most, slot);
      StepKeeps(s, es[0], most);
      hide Inv, Pooled, Step, Closes;
      if slot in t.pool {
        HeldIsClosedIff(t, es[1..], most, slot);
      } else {
        GoneWithSlot(s, es[0], most, slot);
        GoneStaysAlong(t, es[1..], most, slot.env);
        NotPooled(Run(t, es[1..], most), slot);
      }
    }
  }

  lemma NotPooled(s: State, slot: Slot)
    requires !Pooled(s, slot.env)
    ensures slot !in s.pool
  {
    if slot in s.pool {
      SlotPooled(s, slot);
    }
  }

  /** A step that ends its episode releases its own environment if that is still pooled, another one
      if its own is gone and the id was started again, and otherwise nothing. */
  lemma ReleasedOnReturn(s: State, es: seq<Event>, most: nat, slot: Slot, out: StepOut)
    requires Inv(s, most) && slot in s.pool && Ends(out)
    ensures var t := Run(s, es, most);
      var returned := Step(t, Resumed(slot.id, out), most);
      && (slot in t.pool ==> returned.closes == t.closes + multiset{slot.env})
      && (slot !in t.pool && Has(t.pool, slot.id) ==>
            var other := Find(t.pool, slot.id).value;
            other != slot.env && returned.closes == t.closes + multiset{other})
      && (!Has(t.pool, slot.id) ==> returned == t)
  {
    var t := Run(s, es, most);
    RunKeeps(s, es, most);
  }

  /** An id finalized and started again while its step runs: the step's environment is closed under
      it, and its return releases the new one. */
  lemma ReturnCanReleaseAnother(id: Id, most: nat)
    requires most > 0
    ensures var asked := Run(INITIAL, [Started(id), Asked(id)], most);
      && asked.pool == [Slot(id, 0)]
      && ClosedAlong(asked, [Finalized(id), Started(id)], most, Slot(id, 0))
      && Run(asked, [Finalized(id), Started(id)], most).pool == [Slot(id, 1)]
      && Run(asked, [Finalized(id), Started(id), Resumed(id, Raised)], most).closes == multiset{0, 1}
  {
    var s1 := Step(INITIAL, Started(id), most);
    assert s1.pool == [Slot(id, 0)];
    var s2 := Step(s1, Asked(id), most);
    assert s2.pool == [Slot(id, 0)];
    var first := [Started(id), Asked(id)];
    assert first[1..] == [Asked(id)] && first[1..][1..] == [];
    assert Run(s1, [Asked(id)], most) == s2;
    assert Run(INITIAL, first, most) == s2;
    var s3 := Step(s2, Finalized(id), most);
    assert s3.pool == [];
    var s4 := Step(s3, Started(id), most);
    assert s4.pool == [Slot(id, 1)];
    var meanwhile, all := [Finalized(id), Started(id)], [Finalized(id), Started(id), Resumed(id, Raised)];
    assert meanwhile[1..] == [Started(id)];
    assert Run(s3, [Started(id)], most) == s4;
    assert all[1..] == [Started(id), Resumed(id, Raised)] && all[1..][1..] == [Resumed(id, Raised)];
    assert Run(s4, [Resumed(id, Raised)], most) == Step(s4, Resumed(id, Raised), most);
  }
}
