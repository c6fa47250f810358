/** The pool of database environments behind an SQL interaction, stepped between await points. */
module SqlInteraction {
  import opened Options

  type Id = string
  type Env = nat

  datatype Slot = Slot(id: Id, env: Env)

  /** The pool in its order, and what happened to the environments: how many were opened (they are
      numbered as they open), how often each was closed, and which were overwritten while still
      pooled. */
  datatype State = State(
    pool: seq<Slot>,
    built: nat,
    closes: multiset<Env>,
    lost: set<Env>)

  const INITIAL := State([], 0, multiset{}, {})

  predicate Has(pool: seq<Slot>, id: Id) {
    exists i :: 0 <= i < |pool| && pool[i].id == id
  }

  function Without(pool: seq<Slot>, id: Id): (r: seq<Slot>)
    ensures |r| <= |pool|
  {
    if pool == [] then []
    else if pool[0].id == id then pool[1..]
    else [pool[0]] + Without(pool[1..], id)
  }

  function Find(pool: seq<Slot>, id: Id): (r: Option<Env>)
    ensures r.Some? <==> Has(pool, id)
    ensures r.Some? ==> Slot(id, r.value) in pool
  {
    if pool == [] then None
    else if pool[0].id == id then Some(pool[0].env)
    else
      assert Has(pool, id) <==> Has(pool[1..], id) by {
        if Has(pool, id) {
          var i :| 0 <= i < |pool| && pool[i].id == id;
          assert pool[1..][i - 1].id == id;
        }
      }
      Find(pool[1..], id)
  }

  function Envs(slots: seq<Slot>): (r: seq<Env>)
    ensures |r| == |slots|
  {
    seq(|slots|, i requires 0 <= i < |slots| => slots[i].env)
  }

  lemma CloseOneMore(closes: multiset<Env>, slots: seq<Slot>, n: nat)
    requires n < |slots|
    ensures closes + multiset(Envs(slots[..n + 1])) == closes + multiset(Envs(slots[..n])) + multiset{slots[n].env}
  {
    assert Envs(slots[..n + 1]) == Envs(slots[..n]) + [slots[n].env];
  }

  /** How many of the oldest entries must go. */
  function Excess(pool: seq<Slot>, most: nat): (n: nat)
    ensures n <= |pool| && |pool| - n <= most && (n > 0 ==> |pool| - n == most)
  {
    if |pool| > most then |pool| - most else 0
  }

  /** The youngest place. */
  function Place(pool: seq<Slot>, slot: Slot): seq<Slot> {
    Without(pool, slot.id) + [slot]
  }

  /** A new environment is pooled under `id`; the oldest entries beyond the budget are closed. */
  function Open(s: State, id: Id, most: nat): State {
    var placed := Place(s.pool, Slot(id, s.built));
    var n := Excess(placed, most);
    s.(pool := placed[n..],
       built := s.built + 1,
       closes := s.closes + multiset(Envs(placed[..n])),
       lost := s.lost + (if Find(s.pool, id).Some? then {Find(s.pool, id).value} else {}))
  }

  /** Looking an entry up for a step makes it the youngest. */
  function Touch(s: State, id: Id): State {
    match Find(s.pool, id)
    case None => s
    case Some(env) => s.(pool := Place(s.pool, Slot(id, env)))
  }

  function Drop(s: State, id: Id): State {
    match Find(s.pool, id)
    case None => s
    case Some(env) => s.(pool := Without(s.pool, id), closes := s.closes + multiset{env})
  }

  /** What the environment's step came back with. */
  datatype StepOut = Raised | Stepped(reward: real, done: bool, content: string)

  predicate Ends(out: StepOut) {
    out.Raised? || out.done || out.content == ""
  }

  /** The runs of the event loop between two awaits. */
  datatype Event =
    | Started(id: Id)  // an environment was built for `id`
    | Asked(id: Id)  // a response is asked for; an absent id waits for an environment
    | Resumed(id: Id, out: StepOut)  // the environment's step came back
    | Finalized(id: Id)

  function Step(s: State, e: Event, most: nat): State {
    match e
    case Started(id) => Open(s, id, most)
    case Asked(id) => Touch(s, id)
    case Resumed(id, out) => if Ends(out) then Drop(s, id) else s
    case Finalized(id) => Drop(s, id)
  }

  function Run(s: State, es: seq<Event>, most: nat): State
    decreases |es|
  {
    if es == [] then s else Run(Step(s, es[0], most), es[1..], most)
  }

  /** Invariants. */

  ghost predicate DistinctIds(pool: seq<Slot>) {
    forall i, j :: 0 <= i < j < |pool| ==> pool[i].id != pool[j].id
  }

  ghost predicate DistinctEnvs(pool: seq<Slot>) {
    forall i, j :: 0 <= i < j < |pool| ==> pool[i].env != pool[j].env
  }

  ghost predicate Pooled(s: State, env: Env) {
    env in Envs(s.pool)
  }

  /** Every environment opened is in exactly one of three conditions: pooled, closed once, or lost;
      and no other environment has been touched. */
  ghost predicate Accounted(s: State, env: Env) {
    if env < s.built then
      || (Pooled(s, env) && s.closes[env] == 0 && env !in s.lost)
      || (!Pooled(s, env) && s.closes[env] == 1 && env !in s.lost)
      || (!Pooled(s, env) && s.closes[env] == 0 && env in s.lost)
    else !Pooled(s, env) && s.closes[env] == 0 && env !in s.lost
  }

  ghost predicate Inv(s: State, most: nat) {
    && |s.pool| <= most
    && DistinctIds(s.pool) && DistinctEnvs(s.pool)
    && forall env: Env :: Accounted(s, env)
  }

  /** Removing an id: its first entry is cut out of the order. */

  lemma {:induction false} WithoutCuts(pool: seq<Slot>, id: Id) returns (k: nat)
    ensures k <= |pool| && (forall i :: 0 <= i < k ==> pool[i].id != id)
    ensures k < |pool| <==> Has(pool, id)
    ensures k < |pool| ==>
      pool[k].id == id && Find(pool, id) == Some(pool[k].env) && Without(pool, id) == pool[..k] + pool[k + 1..]
    ensures k == |pool| ==> Without(pool, id) == pool && Find(pool, id) == None
  {
    if pool == [] || pool[0].id == id {
      k := 0;
    } else {
      var rest := pool[1..];
      var j := WithoutCuts(rest, id);
      k := j + 1;
      hide Has;
      assert Find(pool, id) == Find(rest, id) && Without(pool, id) == [pool[0]] + Without(rest, id);
      assert forall i :: 0 < i < |pool| ==> pool[i] == rest[i - 1];
      if j < |rest| {
        CutFromTail(pool, j);
      }
    }
  }

  lemma CutFromTail(pool: seq<Slot>, j: nat)
    requires j < |pool| - 1
    ensures [pool[0]] + (pool[1..][..j] + pool[1..][j + 1..]) == pool[..j + 1] + pool[j + 2..]
  {
  }

  /** Cutting entry `k` out of the order. */
  ghost function Cut(s: State, k: nat): State
    requires k < |s.pool|
  {
    s.(pool := s.pool[..k] + s.pool[k + 1..])
  }

  lemma CutPooled(s: State, k: nat)
    requires k < |s.pool| && DistinctEnvs(s.pool)
    ensures forall env :: Pooled(Cut(s, k), env) <==> Pooled(s, env) && env != s.pool[k].env
  {
    var envs := Envs(s.pool);
    var lo, hi := envs[..k], envs[k + 1..];
    assert Envs(Cut(s, k).pool) == lo + hi;
    assert envs == lo + [s.pool[k].env] + hi;
    assert s.pool[k].env !in lo;
    forall i | 0 <= i < |hi|
      ensures hi[i] != s.pool[k].env
    {
      assert hi[i] == envs[k + 1 + i] && envs[k + 1 + i] == s.pool[k + 1 + i].env;
    }
  }

  lemma CutKeeps(s: State, k: nat)
    requires k < |s.pool| && DistinctIds(s.pool) && DistinctEnvs(s.pool)
    ensures DistinctIds(Cut(s, k).pool) && DistinctEnvs(Cut(s, k).pool)
    ensures !Has(Cut(s, k).pool, s.pool[k].id)
  {
    forall i | 0 <= i < |s.pool| - 1
      ensures Cut(s, k).pool[i] == s.pool[if i < k then i else i + 1]
    {
    }
    hide Cut;
  }

  lemma EvictKeeps(s: State, n: nat)
    requires n <= |s.pool| && DistinctIds(s.pool) && DistinctEnvs(s.pool)
    ensures var t := s.(pool := s.pool[n..]);
      && DistinctIds(t.pool) && DistinctEnvs(t.pool)
      && forall env :: Pooled(t, env) <==> Pooled(s, env) && env !in Envs(s.pool[..n])
  {
    var lo, hi := Envs(s.pool[..n]), Envs(s.pool[n..]);
    assert Envs(s.pool) == lo + hi;
    forall i, j | 0 <= i < |lo| && 0 <= j < |hi|
      ensures lo[i] != hi[j]
    {
      assert lo[i] == s.pool[i].env && hi[j] == s.pool[n + j].env;
    }
  }

  /** Appending an entry. */
  lemma AppendKeeps(s: State, slot: Slot)
    requires DistinctIds(s.pool) && DistinctEnvs(s.pool)
    requires !Has(s.pool, slot.id) && !Pooled(s, slot.env)
    ensures var t := s.(pool := s.pool + [slot]);
      && DistinctIds(t.pool) && DistinctEnvs(t.pool)
      && forall env :: Pooled(t, env) <==> Pooled(s, env) || env == slot.env
  {
    var t := s.(pool := s.pool + [slot]);
    forall i | 0 <= i < |s.pool|
      ensures s.pool[i].id != slot.id && s.pool[i].env != slot.env
    {
      assert Envs(s.pool)[i] == s.pool[i].env;
    }
    assert Envs(t.pool) == Envs(s.pool) + [slot.env];
  }

  lemma {:induction false} ClosedOnce(envs: seq<Env>, env: Env)
    requires forall i, j :: 0 <= i < j < |envs| ==> envs[i] != envs[j]
    ensures multiset(envs)[env] == if env in envs then 1 else 0
  {
    if envs != [] {
      ClosedOnce(envs[1..], env);
      assert envs == [envs[0]] + envs[1..];
    }
  }

  /** Steps keep the accounting. */

  lemma DropKeepsInv(s: State, id: Id, most: nat)
    requires Inv(s, most)
    ensures Inv(Drop(s, id), most) && !Has(Drop(s, id).pool, id)
  {
    var k := WithoutCuts(s.pool, id);
    if k < |s.pool| {
      CutKeeps(s, k);
      CutPooled(s, k);
      var t := Drop(s, id);
      assert Envs(s.pool)[k] == s.pool[k].env;
      assert Pooled(s, s.pool[k].env);
      forall env: Env
        ensures Accounted(t, env)
      {
        assert Accounted(s, env);
        assert Pooled(t, env) <==> Pooled(Cut(s, k), env);
      }
    }
  }

  lemma TouchKeeps(s: State, id: Id, most: nat)
    requires Inv(s, most)
    ensures Inv(Touch(s, id), most)
    ensures forall env :: Pooled(Touch(s, id), env) <==> Pooled(s, env)
  {
    var k := WithoutCuts(s.pool, id);
    if k < |s.pool| {
      CutKeeps(s, k);
      CutPooled(s, k);
      var cut := Cut(s, k);
      AppendKeeps(cut, s.pool[k]);
      var t := Touch(s, id);
      assert t.pool == cut.pool + [s.pool[k]];
      assert Envs(s.pool)[k] == s.pool[k].env;
      forall env: Env
        ensures Pooled(t, env) <==> Pooled(s, env)
        ensures Accounted(t, env)
      {
        assert Accounted(s, env);
      }
    }
  }

  /** Pooling the new environment, before anything is evicted. */
  ghost function Placed(s: State, id: Id): State {
    s.(pool := Place(s.pool, Slot(id, s.built)),
       built := s.built + 1,
       lost := s.lost + (if Find(s.pool, id).Some? then {Find(s.pool, id).value} else {}))
  }

  lemma PlacedKeeps(s: State, id: Id, most: nat)
    requires Inv(s, most)
    ensures var t := Placed(s, id);
      && |t.pool| <= most + 1
      && DistinctIds(t.pool) && DistinctEnvs(t.pool)
      && forall env: Env :: Accounted(t, env)
  {
    var k := WithoutCuts(s.pool, id);
    var t, slot := Placed(s, id), Slot(id, s.built);
    assert Accounted(s, s.built);
    var cut := s;
    if k < |s.pool| {
      CutKeeps(s, k);
      CutPooled(s, k);
      cut := Cut(s, k);
      assert Envs(s.pool)[k] == s.pool[k].env;
    }
    AppendKeeps(cut, slot);
    assert t.pool == cut.pool + [slot];
    forall env: Env
      ensures Accounted(t, env)
    {
      assert Accounted(s, env);
      assert Pooled(t, env) <==> Pooled(cut, env) || env == s.built;
    }
  }

  /** The oldest `n` entries closed and gone. */
  ghost function Evicting(s: State, n: nat): State
    requires n <= |s.pool|
  {
    s.(pool := s.pool[n..], closes := s.closes + multiset(Envs(s.pool[..n])))
  }

  lemma EvictAccounts(s: State, n: nat, env: Env)
    requires n <= |s.pool| && DistinctIds(s.pool) && DistinctEnvs(s.pool) && Accounted(s, env)
    ensures Accounted(Evicting(s, n), env)
  {
    EvictKeeps(s, n);
    var gone := Envs(s.pool[..n]);
    assert forall i :: 0 <= i < n ==> Envs(s.pool)[i] == gone[i];
    ClosedOnce(gone, env);
    hide DistinctIds;
    assert Pooled(Evicting(s, n), env) <==> Pooled(s.(pool := s.pool[n..]), env);
    assert env in gone ==> Pooled(s, env);
  }

  lemma EvictShape(s: State, n: nat)
    requires n <= |s.pool| && DistinctIds(s.pool) && DistinctEnvs(s.pool)
    ensures var t := Evicting(s, n); DistinctIds(t.pool) && DistinctEnvs(t.pool)
    ensures |Evicting(s, n).pool| == |s.pool| - n
  {
    EvictKeeps(s, n);
  }

  /** Opening closes what it evicts, each environment once. */
  lemma OpenKeeps(s: State, id: Id, most: nat)
    requires Inv(s, most)
    ensures Inv(Open(s, id, most), most)
  {
    PlacedKeeps(s, id, most);
    hide Placed, Evicting, Accounted, Open, Find, Without, Place, DistinctIds, DistinctEnvs;
    var p := Placed(s, id);
    var n := Excess(p.pool, most);
    EvictShape(p, n);
    forall env: Env
      ensures Accounted(Evicting(p, n), env)
    {
      EvictAccounts(p, n, env);
    }
  }

  lemma OpenIs(s: State, id: Id, most: nat)
    ensures var placed := Place(s.pool, Slot(id, s.built));
      var n := Excess(placed, most);
      var lost := s.lost + (if Find(s.pool, id).Some? then {Find(s.pool, id).value} else {});
      Open(s, id, most) == State(placed[n..], s.built + 1, s.closes + multiset(Envs(placed[..n])), lost)
  {
  }

  lemma StepKeeps(s: State, e: Event, most: nat)
    requires Inv(s, most)
    ensures Inv(Step(s, e, most), most)
  {
    match e
    case Started(id) => OpenKeeps(s, id, most);
    case Asked(id) => TouchKeeps(s, id, most);
    case Resumed(id, out) => if Ends(out) { DropKeepsInv(s, id, most); }
    case Finalized(id) => DropKeepsInv(s, id, most);
  }

  /** Over every interleaving: the pool stays within its budget, and every environment is pooled,
      closed exactly once, or was overwritten. */
  lemma {:induction false} RunKeeps(s: State, es: seq<Event>, most: nat)
    requires Inv(s, most)
    ensures Inv(Run(s, es, most), most)
    decreases |es|
  {
    if es != [] {
      StepKeeps(s, es[0], most);
      RunKeeps(Step(s, es[0], most), es[1..], most);
    }
  }

  /** Some environment is started for an id that is still pooled. */
  ghost predicate Restarts(s: State, es: seq<Event>, most: nat)
    decreases |es|
  {
    es != [] &&
    ((es[0].Started? && Has(s.pool, es[0].id)) || Restarts(Step(s, es[0], most), es[1..], most))
  }

  lemma LostOnlyGrows(s: State, e: Event, most: nat)
    requires Inv(s, most)
    ensures s.lost <= Step(s, e, most).lost
    ensures Step(s, e, most).lost > s.lost <==> e.Started? && Has(s.pool, e.id)
  {
    if e.Started? && Has(s.pool, e.id) {
      var env := Find(s.pool, e.id).value;
      assert Slot(e.id, env) in s.pool;
      var i :| 0 <= i < |s.pool| && s.pool[i] == Slot(e.id, env);
      assert Envs(s.pool)[i] == env;
      assert Accounted(s, env);
    }
  }

  lemma {:induction false} LostIffRestarted(s: State, es: seq<Event>, most: nat)
    requires Inv(s, most)
    ensures s.lost <= Run(s, es, most).lost
    ensures Run(s, es, most).lost > s.lost <==> Restarts(s, es, most)
    decreases |es|
  {
    if es != [] {
      StepKeeps(s, es[0], most);
      LostOnlyGrows(s, es[0], most);
      LostIffRestarted(Step(s, es[0], most), es[1..], most);
    }
  }

  /** Retained and open, or closed once and out of the pool. */
  ghost predicate KeptOrClosedOnce(s: State, env: Env) {
    (Pooled(s, env) && s.closes[env] == 0) || (!Pooled(s, env) && s.closes[env] == 1)
  }

  /** Every environment opened is retained, or closed exactly once, in every run in which no live id
      is restarted, and in no other run. */
  lemma ClosedExactlyOnceIffNotRestarted(es: seq<Event>, most: nat)
    ensures (forall env: Env | env < Run(INITIAL, es, most).built :: KeptOrClosedOnce(Run(INITIAL, es, most), env))
      <==> !Restarts(INITIAL, es, most)
    ensures |Run(INITIAL, es, most).pool| <= most
    ensures forall env: Env :: Run(INITIAL, es, most).closes[env] <= 1
  {
    RunKeeps(INITIAL, es, most);
    LostIffRestarted(INITIAL, es, most);
    var s := Run(INITIAL, es, most);
    hide Run, Restarts;
    forall env: Env
      ensures s.closes[env] <= 1
      ensures env in s.lost ==> env < s.built && !KeptOrClosedOnce(s, env)
      ensures env < s.built && env !in s.lost ==> KeptOrClosedOnce(s, env)
    {
      assert Accounted(s, env);
    }
    if env :| env in s.lost {
      assert !KeptOrClosedOnce(s, env);
    }
  }

  /** Restarting a pooled id leaves its first environment open and out of reach. */
  lemma RestartLosesEnvironment(id: Id, most: nat)
    requires most > 0
    ensures var s := Run(INITIAL, [Started(id), Started(id), Finalized(id)], most);
      s.pool == [] && s.built == 2 && s.closes == multiset{1} && s.lost == {0}
  {
    var s1 := Step(INITIAL, Started(id), most);
    assert s1.pool == [Slot(id, 0)];
    var s2 := Step(s1, Started(id), most);
    assert Place(s1.pool, Slot(id, 1)) == [Slot(id, 1)];
    assert s2.pool == [Slot(id, 1)];
    var es := [Started(id), Started(id), Finalized(id)];
    assert es[1..] == [Started(id), Finalized(id)] && es[1..][1..] == [Finalized(id)];
    assert Run(s2, [Finalized(id)], most) == Step(s2, Finalized(id), most);
  }

  /** The environment just opened is pooled, and can be looked up, unless the budget is zero. */
  lemma NewestIsKeptIffBudget(s: State, id: Id, most: nat)
    requires Inv(s, most)
    ensures Find(Open(s, id, most).pool, id) == if most > 0 then Some(s.built) else None
  {
    PlacedKeeps(s, id, most);
    var p := Placed(s, id);
    var n := Excess(p.pool, most);
    var pool := Open(s, id, most).pool;
    assert pool == p.pool[n..];
    EvictKeeps(p, n);
    var k := WithoutCuts(pool, id);
    if most > 0 {
      assert pool[|pool| - 1] == Slot(id, s.built);
    }
  }

  /** The interaction: methods are the code between awaits. */
  class Interaction {
    const maxInstances: nat
    var instanceDict: seq<Slot>
    ghost var built: nat
    ghost var closes: multiset<Env>
    ghost var lost: set<Env>

    ghost function Abs(): State
      reads this
    {
      State(instanceDict, built, closes, lost)
    }

    ghost predicate Valid()
      reads this
    {
      Inv(Abs(), maxInstances)
    }

    constructor (maxInstances: nat)
      ensures Valid() && Abs() == INITIAL && this.maxInstances == maxInstances
    {
      this.maxInstances := maxInstances;
      instanceDict := [];
      built, closes, lost := 0, multiset{}, {};
    }

    method Close(entry: Slot)
      modifies `closes
      ensures closes == old(closes) + multiset{entry.env}
    {
      closes := closes + multiset{entry.env};
    }

    /** Stores an environment as the youngest entry and evicts the oldest ones beyond the budget. */
    method Remember(id: Id, env: Env)
      modifies `instanceDict, `closes
      ensures var placed := Place(old(instanceDict), Slot(id, env));
        var n := Excess(placed, maxInstances);
        instanceDict == placed[n..] && closes == old(closes) + multiset(Envs(placed[..n]))
    {
      instanceDict := Without(instanceDict, id) + [Slot(id, env)];
      ghost var placed, n := instanceDict, 0;
      assert placed == Place(old(instanceDict), Slot(id, env)) && placed[..0] == [];
      hide Without, Place, Find, Envs, Excess;
      while |instanceDict| > maxInstances
        invariant n <= |placed| && instanceDict == placed[n..] && n <= Excess(placed, maxInstances)
        invariant closes == old(closes) + multiset(Envs(placed[..n]))
      {
        var stale := instanceDict[0];
        instanceDict := instanceDict[1..];
        Close(stale);
        CloseOneMore(old(closes), placed, n);
        n := n + 1;
      }
    }

    method Release(id: Id)
      requires Valid()
      modifies this
      ensures Valid() && Abs() == Drop(old(Abs()), id)
    {
      DropKeepsInv(Abs(), id, maxInstances);
      var env := Find(instanceDict, id);
      if env.Some? {
        instanceDict := Without(instanceDict, id);
        Close(Slot(id, env.value));
      }
    }

    /** The rest of a start, once the new environment was built off the event loop. */
    method FinishStart(id: Id, env: Env)
      requires Valid() && env == built
      modifies this
      ensures Valid() && Abs() == Open(old(Abs()), id, maxInstances)
    {
      OpenKeeps(Abs(), id, maxInstances);
      ghost var before := Abs();
      OpenIs(before, id, maxInstances);
      hide Inv, Find, Without, Place, Envs, Excess, Open;
      Remember(id, env);
      lost := before.lost + (if Find(before.pool, id).Some? then {Find(before.pool, id).value} else {});
      built := before.built + 1;
    }

    /** A response is asked for: an entry that is there becomes the youngest and its environment is
        stepped; otherwise an environment has to be started first. */
    method BeginResponse(id: Id) returns (env: Option<Env>)
      requires Valid()
      modifies this
      ensures Valid() && Abs() == Touch(old(Abs()), id) && env == Find(old(instanceDict), id)
    {
      TouchKeeps(Abs(), id, maxInstances);
      env := Find(instanceDict, id);
      if env.Some? {
        instanceDict := Without(instanceDict, id) + [Slot(id, env.value)];
      }
    }

    /** The rest of a response: a failed or finished episode gives its environment back. */
    method FinishResponse(id: Id, out: StepOut) returns (finished: bool, content: string, reward: real)
      requires Valid()
      modifies this
      ensures Valid() && Abs() == Step(old(Abs()), Resumed(id, out), maxInstances)
      ensures finished <==> out.Raised? || out.done || out.content == ""
      ensures if finished then !Has(instanceDict, id) else Abs() == old(Abs())
      ensures out.Stepped? ==> content == out.content && reward == out.reward
      ensures out.Raised? ==> content == "" && reward == 0.0
    {
      DropKeepsInv(Abs(), id, maxInstances);
      if out.Raised? {
        Release(id);
        return true, "", 0.0;
      }
      if out.done || out.content == "" {
        Release(id);
        return true, out.content, out.reward;
      }
      return false, out.content, out.reward;
    }

    method FinalizeInteraction(id: Id)
      requires Valid()
      modifies this
      ensures Valid() && Abs() == Step(old(Abs()), Finalized(id), maxInstances)
    {
      Release(id);
    }
  }

  /** Trimming a generation to its first stop tag. */

  const STOP_TAGS: seq<string> := ["</sql>", "</solution>"]

  /** `tag` occurs in `s` ending just before position `e`. */
  predicate TagEndsAt(s: string, tag: string, e: nat) {
    |tag| <= e <= |s| && s[e - |tag|..e] == tag
  }

  /** The first position at which `tag` occurs in `s`, -1 if it does not. */
  method FindTag(s: string, tag: string) returns (idx: int)
    ensures -1 <= idx
    ensures idx >= 0 ==> TagEndsAt(s, tag, idx + |tag|)
    ensures forall e: nat | TagEndsAt(s, tag, e) :: 0 <= idx && idx + |tag| <= e
  {
    idx := 0;
    while idx + |tag| <= |s|
      invariant 0 <= idx
      invariant forall e: nat | TagEndsAt(s, tag, e) :: idx + |tag| <= e
    {
      if s[idx..idx + |tag|] == tag {
        return;
      }
      assert !TagEndsAt(s, tag, idx + |tag|);
      idx := idx + 1;
    }
    idx := -1;
  }

  ghost predicate StopEndsAt(s: string, e: nat) {
    exists t :: 0 <= t < |STOP_TAGS| && TagEndsAt(s, STOP_TAGS[t], e)
  }

  /** Where the earliest stop tag ends. */
  method EarliestStop(action: string) returns (cut: Option<nat>)
    ensures cut.Some? ==> cut.value <= |action| && StopEndsAt(action, cut.value)
    ensures forall e: nat | StopEndsAt(action, e) :: cut.Some? && cut.value <= e
  {
    cut := None;
    for t := 0 to |STOP_TAGS|
      invariant cut.Some? ==> cut.value <= |action| && StopEndsAt(action, cut.value)
      invariant forall u, e: nat | 0 <= u < t && TagEndsAt(action, STOP_TAGS[u], e) :: cut.Some? && cut.value <= e
    {
      var idx := FindTag(action, STOP_TAGS[t]);
      if idx != -1 {
        var end := idx + |STOP_TAGS[t]|;
        assert TagEndsAt(action, STOP_TAGS[t], end);
        if cut.None? || end < cut.value {
          cut := Some(end);
        }
      }
    }
  }

  /** Cuts after the earliest stop tag: nothing is lost, and what is kept has no stop tag but the one
      it ends with. */
  method TruncateAtStopTag(action: string) returns (kept: string, trailing: string)
    ensures kept + trailing == action
    ensures (exists e: nat :: StopEndsAt(action, e)) ==> StopEndsAt(kept, |kept|)
    ensures (forall e: nat :: !StopEndsAt(action, e)) ==> trailing == ""
    ensures forall e: nat :: StopEndsAt(kept, e) ==> e == |kept|
  {
    var cut := EarliestStop(action);
    if cut.None? {
      return action, "";
    }
    kept, trailing := action[..cut.value], action[cut.value..];
    forall e: nat
      ensures StopEndsAt(kept, e) ==> e == |kept|
      ensures e == |kept| ==> StopEndsAt(kept, e)
    {
      if e <= |kept| {
        StopInPrefix(action, cut.value, e);
      }
    }
  }

  lemma StopInPrefix(s: string, n: nat, e: nat)
    requires e <= n <= |s|
    ensures StopEndsAt(s[..n], e) <==> StopEndsAt(s, e)
  {
    forall t | 0 <= t < |STOP_TAGS|
      ensures TagEndsAt(s[..n], STOP_TAGS[t], e) <==> TagEndsAt(s, STOP_TAGS[t], e)
    {
      if |STOP_TAGS[t]| <= e {
        assert s[..n][e - |STOP_TAGS[t]|..e] == s[e - |STOP_TAGS[t]|..e];
      }
    }
  }
}
