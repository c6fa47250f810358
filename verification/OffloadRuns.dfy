/** Whole training runs of the offload handler, compared with a plain dictionary of saved tensors. */
module OffloadRuns {
  import opened Arithmetic
  import opened Options
  import opened OffloadWindow
  import opened ActivationOffload

  datatype Phase = Forward | Backward

  /** What a run would keep if tensors were never moved: a dictionary from tags to tensors,
      and where the run is. `rounds` counts finished forward and backward passes. */
  datatype Plain = Plain(phase: Phase, current: nat, count: nat, items: map<Tag, Tensor>, rounds: nat)

  const FRESH := Plain(Forward, 0, 0, map[], 0)

  datatype Event =
    | Save(tensor: Tensor, needOffload: bool)
    | EndLayer
    | EnterLayer
    | Fetch(saved: Saved)

  /** Groups whose tensors leave the device. With as many groups as layers a group is due before its
      tensors exist, except for the first. */
  ghost predicate Departs(c: Config, g: nat) {
    g < c.groups && (c.groups < c.layers || g == 0)
  }

  /** Tensors of group `g` that share storage have the same flat contents. */
  ghost predicate AgreeIn(items: map<Tag, Tensor>, g: nat) {
    forall a, b | a in items && b in items && a.group == b.group == g && items[a].key == items[b].key ::
      items[a].data == items[b].data
  }

  /** They do in every group that leaves the device. */
  ghost predicate KeysAgree(c: Config, items: map<Tag, Tensor>) {
    forall g | Departs(c, g) :: AgreeIn(items, g)
  }

  /** The order in which training calls the handler: every layer saves tensors and commits; then
      layers are re-entered in reverse, and a saved tensor is fetched, once, at any time after its
      layer was re-entered. The next pass starts when all were fetched. */
  ghost predicate Enabled(c: Config, d: Plain, e: Event) {
    match e
    case Save(t, need) =>
      d.phase.Forward? && d.current < c.layers && t.WellShaped()
      && (need ==> KeysAgree(c, d.items[Tag(d.current, d.count) := t]))
    case EndLayer => d.phase.Forward? && d.current < c.layers
    case EnterLayer => d.current > 0 && (d.phase.Forward? ==> d.current == c.layers)
    case Fetch(Direct(_)) => true
    case Fetch(Tagged(tag)) => d.phase.Backward? && tag in d.items && d.current <= tag.group
  }

  /** A backward pass is over when it is back at the first layer with nothing left to fetch. */
  function Settle(d: Plain): Plain {
    if d.phase.Backward? && d.current == 0 && d.items == map[]
    then Plain(Forward, 0, 0, map[], d.rounds + 1) else d
  }

  ghost function PlainStep(c: Config, d: Plain, e: Event): Plain
    requires Enabled(c, d, e)
  {
    match e
    case Save(t, need) =>
      if need then d.(count := d.count + 1, items := d.items[Tag(d.current, d.count) := t]) else d
    case EndLayer => d.(current := d.current + 1, count := 0)
    case EnterLayer => Settle(d.(phase := Backward, current := d.current - 1))
    case Fetch(Direct(_)) => d
    case Fetch(Tagged(tag)) => Settle(d.(items := d.items - {tag}))
  }

  /** What the caller gets back from a step. */
  datatype Answer = Nothing | Kept(saved: Saved) | Got(tensor: Tensor)

  ghost function PlainAnswer(c: Config, d: Plain, e: Event): Answer
    requires Enabled(c, d, e)
  {
    match e
    case Save(t, need) => Kept(if need then Tagged(Tag(d.current, d.count)) else Direct(t))
    case EndLayer => Nothing
    case EnterLayer => Nothing
    case Fetch(Direct(t)) => Got(t)
    case Fetch(Tagged(tag)) => Got(d.items[tag])
  }

  /** The assertions and lookups of the handler that step `e` goes through. */
  ghost predicate Safe(c: Config, s: State, e: Event)
    requires c.Sized()
  {
    match e
    case Save(_, need) => need ==> CanPush(s)
    case EndLayer => CanCommitForward(c, s)
    case EnterLayer => CanCommitBackward(c, s)
    case Fetch(Direct(_)) => true
    case Fetch(Tagged(tag)) => CanPop(s, tag)
  }

  ghost function HandlerStep(c: Config, s: State, e: Event): State
    requires c.Sized() && Safe(c, s, e)
  {
    match e
    case Save(t, need) => if need then Push(c, s, t) else s
    case EndLayer => CommitForward(c, s)
    case EnterLayer => CommitBackward(c, s)
    case Fetch(Direct(_)) => s
    case Fetch(Tagged(tag)) => Pop(s, tag)
  }

  ghost function HandlerAnswer(c: Config, s: State, e: Event): Answer
    requires c.Sized() && Safe(c, s, e)
  {
    match e
    case Save(t, need) => Kept(if need then Tagged(Tag(s.current, s.count)) else Direct(t))
    case EndLayer => Nothing
    case EnterLayer => Nothing
    case Fetch(Direct(t)) => Got(t)
    case Fetch(Tagged(tag)) => Got(s.slots[tag].tensor)
  }

  /** The moves of one pass: groups leave in order and return in the reverse order, each once. */
  function Departures(n: nat): seq<Move> {
    if n == 0 then [] else Departures(n - 1) + [Offloaded(n - 1)]
  }

  function Returns(n: nat, m: nat): seq<Move>
    requires m <= n
    decreases n - m
  {
    if m == n then [] else Returns(n, m + 1) + [Reloaded(m)]
  }

  function Rounds(c: Config, n: nat): seq<Move> {
    if n == 0 then [] else Rounds(c, n - 1) + (Departures(c.groups) + Returns(c.groups, 0))
  }

  /** How many groups have a host copy. */
  ghost function AwayCount(c: Config, d: Plain): (n: nat)
    requires c.Sized()
    ensures n <= c.groups
  {
    var m := c.Passed(d.current);
    if d.phase.Backward? then m
    else if d.current == 0 then 0
    else Min(m + 1, c.groups)
  }

  ghost function ExpectedLog(c: Config, d: Plain): seq<Move>
    requires c.Sized()
  {
    Rounds(c, d.rounds) +
    if d.phase.Forward? then Departures(AwayCount(c, d))
    else Departures(c.groups) + Returns(c.groups, c.Passed(d.current))
  }

  /** A slot stands for a tensor: it is the tensor, or leads to its contents on the host. */
  ghost predicate StandsFor(s: State, tag: Tag, t: Tensor)
    requires tag in s.slots
  {
    match s.slots[tag]
    case Live(held) => held == t
    case Away(key, shape) =>
      && key == t.key && shape == t.shape
      && tag.group in s.away && key in s.away[tag.group] && s.away[tag.group][key] == t.data
  }

  /** Positions and tags of the plain run. */
  ghost predicate PlainOk(c: Config, d: Plain) {
    && d.current <= c.layers
    && KeysAgree(c, d.items)
    && (forall tag | tag in d.items :: tag.group < c.layers && d.items[tag].WellShaped())
    && (d.phase.Forward? ==> forall tag | tag in d.items ::
          tag.group < d.current || (tag.group == d.current && tag.index < d.count))
    && (d.phase.Backward? ==> d.count == 0 && d.current < c.layers)
    && (d.phase.Backward? && d.current == 0 ==> d.items != map[])
    && (d.phase.Forward? && d.current == c.layers ==> d.count == 0)
  }

  /** The handler holds what the plain dictionary holds. */
  ghost predicate SlotsOk(s: State, d: Plain) {
    && s.slots.Keys == d.items.Keys
    && forall tag | tag in s.slots :: StandsFor(s, tag, d.items[tag])
  }

  /** Counters, host copies and buffers are where the window table puts them. */
  ghost predicate ProgressOk(c: Config, s: State, d: Plain)
    requires c.Sized()
  {
    var m := c.Passed(d.current);
    && s.current == d.current
    && s.count == d.count
    && s.done == (if d.phase.Forward? then m else if d.current == 0 then 0 else if m == 0 then 1 else m)
    && (forall g :: g in s.away <==> 0 <= g < AwayCount(c, d))
  }

  ghost predicate BuffersOk(c: Config, s: State, d: Plain)
    requires c.Sized()
  {
    && (forall tag :: tag in s.buf <==> tag in d.items && tag.group < c.groups)
    && (forall tag | tag in s.buf :: s.buf[tag] ==
          if d.phase.Forward? && c.Passed(d.current) <= tag.group then Some(d.items[tag]) else None)
  }

  /** Of a group with a host copy nothing is left on the device; groups that do not depart stay. */
  ghost predicate LeftOk(c: Config, s: State) {
    forall tag | tag in s.slots ::
      if Departs(c, tag.group) then tag.group in s.away ==> s.slots[tag].Away? else s.slots[tag].Live?
  }

  ghost predicate Inv(c: Config, s: State, d: Plain)
    requires c.Valid()
  {
    PlainOk(c, d) && OrderOk(s) && SlotsOk(s, d) && ProgressOk(c, s, d) && BuffersOk(c, s, d) && LeftOk(c, s)
    && s.log == ExpectedLog(c, d)
  }

  lemma InitialInv(c: Config)
    requires c.Valid()
    ensures Inv(c, INITIAL, FRESH)
  {
    c.PassedBelow(0);
  }

  /** Bulk moves. */

  /** Offloading a live group keeps what every slot stands for. */
  lemma OffloadStandsFor(s: State, d: Plain, g: nat)
    requires OrderOk(s) && SlotsOk(s, d) && AgreeIn(d.items, g) && AllLive(s, g)
    ensures SlotsOk(BulkOffload(s, g), d)
  {
    var s' := BulkOffload(s, g);
    assert s'.slots.Keys == s.slots.Keys;
    var copies := Copies(s.order, s.slots, g);
    assert forall tag | tag in s.slots && tag.group == g ::
        d.items[tag].key in copies && copies[d.items[tag].key] == d.items[tag].data
    by {
      assert forall tag | tag in s.slots && tag.group == g :: StandsFor(s, tag, d.items[tag]);
      GroupCopies(s, g);
    }
    forall tag | tag in s'.slots
      ensures StandsFor(s', tag, d.items[tag])
    {
      assert StandsFor(s, tag, d.items[tag]);
      if tag.group == g {
        assert s'.away[g] == copies;
      }
    }
  }

  /** Every step keeps the plain run well formed. */
  lemma PlainKeeps(c: Config, d: Plain, e: Event)
    requires c.Valid() && PlainOk(c, d) && Enabled(c, d, e)
    ensures PlainOk(c, PlainStep(c, d, e))
  {
  }

  /** Saving a tensor. */

  lemma PushOrder(c: Config, s: State, t: Tensor)
    requires OrderOk(s) && CanPush(s)
    ensures OrderOk(Push(c, s, t))
  {
  }

  lemma PushSlots(c: Config, s: State, d: Plain, t: Tensor)
    requires SlotsOk(s, d) && CanPush(s)
    ensures SlotsOk(Push(c, s, t), d.(items := d.items[Tag(s.current, s.count) := t]))
  {
    var tag := Tag(s.current, s.count);
    var s', d' := Push(c, s, t), d.(items := d.items[tag := t]);
    assert s'.slots.Keys == s.slots.Keys + {tag};
    assert d'.items.Keys == d.items.Keys + {tag};
    forall other | other in s'.slots
      ensures StandsFor(s', other, d'.items[other])
    {
      if other != tag {
        assert StandsFor(s, other, d.items[other]);
      }
    }
  }

  lemma SaveProgress(c: Config, s: State, d: Plain, t: Tensor)
    requires c.Valid() && ProgressOk(c, s, d) && BuffersOk(c, s, d) && LeftOk(c, s) && CanPush(s)
    requires Enabled(c, d, Save(t, true))
    ensures ProgressOk(c, Push(c, s, t), PlainStep(c, d, Save(t, true)))
    ensures BuffersOk(c, Push(c, s, t), PlainStep(c, d, Save(t, true)))
    ensures LeftOk(c, Push(c, s, t))
  {
    c.PassedBelow(d.current);
    assert Departs(c, s.current) ==> s.current !in s.away;
    PushBuffers(c, s, d, t);
    PushLeft(c, s, t);
    hide BuffersOk, LeftOk, Config.Passed, Config.Valid;
  }

  lemma PushLeft(c: Config, s: State, t: Tensor)
    requires LeftOk(c, s) && (Departs(c, s.current) ==> s.current !in s.away)
    requires CanPush(s)
    ensures LeftOk(c, Push(c, s, t))
  {
  }

  lemma PushBuffers(c: Config, s: State, d: Plain, t: Tensor)
    requires c.Valid() && ProgressOk(c, s, d) && BuffersOk(c, s, d) && CanPush(s) && Enabled(c, d, Save(t, true))
    ensures BuffersOk(c, Push(c, s, t), PlainStep(c, d, Save(t, true)))
  {
    c.PassedBelow(d.current);
    hide Config.Passed, Config.Valid, AwayCount, KeysAgree;
  }

  lemma SaveKeeps(c: Config, s: State, d: Plain, t: Tensor)
    requires c.Valid() && Inv(c, s, d) && Enabled(c, d, Save(t, true))
    ensures CanPush(s) && Inv(c, Push(c, s, t), PlainStep(c, d, Save(t, true)))
  {
    assert CanPush(s) by {
      assert Tag(s.current, s.count) !in d.items;
    }
    PlainKeeps(c, d, Save(t, true));
    PushOrder(c, s, t);
    PushSlots(c, s, d, t);
    SaveProgress(c, s, d, t);
  }

  /** Ending a layer. */

  /** Nothing but the slots and the host copies matters for what slots stand for. */
  lemma SlotsOnly(s: State, s': State, d: Plain)
    requires SlotsOk(s, d) && OrderOk(s)
    requires s'.slots == s.slots && s'.away == s.away && s'.order == s.order
    ensures SlotsOk(s', d) && OrderOk(s')
  {
    forall tag | tag in s'.slots
      ensures StandsFor(s', tag, d.items[tag])
    {
      assert StandsFor(s, tag, d.items[tag]);
    }
  }

  lemma LiveUnlessAway(s: State, d: Plain, g: nat)
    requires SlotsOk(s, d) && g !in s.away
    ensures AllLive(s, g)
  {
    forall tag | tag in s.slots && tag.group == g
      ensures s.slots[tag].Live?
    {
      assert StandsFor(s, tag, d.items[tag]);
    }
  }

  lemma OffloadKeeps(s: State, d: Plain, g: nat)
    requires OrderOk(s) && SlotsOk(s, d) && AgreeIn(d.items, g) && g !in s.away
    ensures AllLive(s, g) && SlotsOk(BulkOffload(s, g), d) && OrderOk(BulkOffload(s, g))
  {
    OffloadStandsFor(s, d, g);
  }

  /** Closing a window moves the next group out and changes nothing else that slots depend on. */
  lemma ClosedWindow(c: Config, s: State)
    requires AllLive(s, s.done + 1)
    ensures var moved := if s.done + 1 < c.groups then BulkOffload(s, s.done + 1) else s;
      CloseWindow(c, s) == moved.(buf := FreeBuffers(s, s.done).buf, done := s.done + 1)
  {
  }

  lemma CloseWindowSlots(c: Config, s: State, d: Plain)
    requires OrderOk(s) && SlotsOk(s, d) && s.done + 1 !in s.away
    requires s.done + 1 < c.groups ==> AgreeIn(d.items, s.done + 1)
    ensures AllLive(s, s.done + 1) && SlotsOk(CloseWindow(c, s), d) && OrderOk(CloseWindow(c, s))
  {
    LiveUnlessAway(s, d, s.done + 1);
    ClosedWindow(c, s);
    hide SlotsOk, OrderOk, AgreeIn, BulkOffload, FreeBuffers, CloseWindow, AllLive;
    if s.done + 1 < c.groups {
      OffloadKeeps(s, d, s.done + 1);
      SlotsOnly(BulkOffload(s, s.done + 1), CloseWindow(c, s), d);
    } else {
      SlotsOnly(s, CloseWindow(c, s), d);
    }
  }

  lemma EndLayerSlots(c: Config, s: State, d: Plain)
    requires c.Sized() && OrderOk(s) && SlotsOk(s, d) && s.done < c.groups
    requires s.current == 0 ==> 0 !in s.away && AgreeIn(d.items, 0)
    requires s.done + 1 !in s.away
    requires c.table[s.done] == s.current && s.done + 1 < c.groups ==> AgreeIn(d.items, s.done + 1)
    ensures CanCommitForward(c, s) && SlotsOk(CommitForward(c, s), d) && OrderOk(CommitForward(c, s))
  {
    if s.current == 0 {
      OffloadKeeps(s, d, 0);
    }
    var kicked := Kickstart(s);
    if c.table[s.done] == s.current {
      CloseWindowSlots(c, kicked, d);
    }
    var closed := if c.table[s.done] == s.current then CloseWindow(c, kicked) else kicked;
    SlotsOnly(closed, CommitForward(c, s), d);
  }

  ghost function Ended(d: Plain): Plain {
    d.(current := d.current + 1, count := 0)
  }

  /** The groups sent away by the commit of a layer. */
  ghost function Sent(c: Config, s: State): seq<Move>
    requires s.done < |c.table|
  {
    (if s.current == 0 then [Offloaded(0)] else []) +
    (if c.table[s.done] == s.current && s.done + 1 < c.groups then [Offloaded(s.done + 1)] else [])
  }

  lemma EndLayerMoves(c: Config, s: State)
    requires c.Sized() && CanCommitForward(c, s)
    ensures CommitForward(c, s).log == s.log + Sent(c, s)
    ensures forall g: nat :: g in CommitForward(c, s).away <==> g in s.away || Offloaded(g) in Sent(c, s)
  {
  }

  lemma EndLayerCounters(c: Config, s: State)
    requires c.Sized() && CanCommitForward(c, s)
    ensures CommitForward(c, s).current == s.current + 1 && CommitForward(c, s).count == 0
    ensures CommitForward(c, s).done == if c.table[s.done] == s.current then s.done + 1 else s.done
  {
  }

  lemma AwayCountEnded(c: Config, s: State, d: Plain)
    requires c.Valid() && d.phase.Forward? && d.current < c.layers && s.done == c.Passed(d.current)
    ensures s.done + 1 <= c.groups
    ensures AwayCount(c, d) == if d.current == 0 then 0 else s.done + 1
    ensures d.current == 0 ==> s.done == 0
    ensures AwayCount(c, Ended(d)) ==
      if c.table[s.done] == d.current && s.done + 1 < c.groups then s.done + 2 else s.done + 1
  {
    c.PassedBelow(d.current);
  }

  /** Groups leave in order: what is sent away continues the departures so far. */
  lemma SentInOrder(c: Config, s: State, d: Plain)
    requires c.Valid() && d.phase.Forward? && d.current < c.layers
    requires s.current == d.current && s.done == c.Passed(d.current) < c.groups
    ensures AwayCount(c, d) <= AwayCount(c, Ended(d))
    ensures Departures(AwayCount(c, Ended(d))) == Departures(AwayCount(c, d)) + Sent(c, s)
    ensures forall g: nat :: Offloaded(g) in Sent(c, s) <==> AwayCount(c, d) <= g < AwayCount(c, Ended(d))
  {
    AwayCountEnded(c, s, d);
    var n, n' := AwayCount(c, d), AwayCount(c, Ended(d));
    hide AwayCount, Config.Passed, Config.Valid;
    assert n' == n ==> Sent(c, s) == [];
    assert n' == n + 1 ==> Sent(c, s) == [Offloaded(n)];
    assert n' == n + 2 ==> Sent(c, s) == [Offloaded(n)] + [Offloaded(n + 1)];
  }

  lemma EndLayerLog(c: Config, s: State, d: Plain)
    requires c.Valid() && s.log == ExpectedLog(c, d) && CanCommitForward(c, s)
    requires d.phase.Forward? && d.current < c.layers
    requires s.current == d.current && s.done == c.Passed(d.current) < c.groups
    ensures CommitForward(c, s).log == ExpectedLog(c, Ended(d))
  {
    EndLayerMoves(c, s);
    SentInOrder(c, s, d);
    hide CommitForward, CanCommitForward, Sent, AwayCount, Departures, Rounds, Config.Passed, Config.Valid;
    var r := Rounds(c, d.rounds);
    assert r + (Departures(AwayCount(c, d)) + Sent(c, s)) == r + Departures(AwayCount(c, d)) + Sent(c, s);
  }

  lemma EndLayerProgress(c: Config, s: State, d: Plain)
    requires c.Valid() && ProgressOk(c, s, d) && d.phase.Forward? && d.current < c.layers && CanCommitForward(c, s)
    ensures ProgressOk(c, CommitForward(c, s), Ended(d))
  {
    EndLayerMoves(c, s);
    EndLayerCounters(c, s);
    SentInOrder(c, s, d);
    hide CommitForward, CanCommitForward, Sent, AwayCount, Departures, Config.Passed, Config.Valid;
  }

  lemma CommitForwardBuffers(c: Config, s: State)
    requires c.Sized() && CanCommitForward(c, s)
    ensures CommitForward(c, s).buf == if c.table[s.done] == s.current then FreeBuffers(s, s.done).buf else s.buf
    ensures CommitForward(c, s).slots.Keys == s.slots.Keys
  {
  }

  lemma EndLayerBuffers(c: Config, s: State, d: Plain)
    requires c.Valid() && s.done == c.Passed(d.current) && BuffersOk(c, s, d) && s.current == d.current
    requires d.phase.Forward? && d.current < c.layers && CanCommitForward(c, s)
    ensures BuffersOk(c, CommitForward(c, s), Ended(d))
  {
    CommitForwardBuffers(c, s);
    c.PassedUp(d.current);
    hide CommitForward, CanCommitForward, Config.Passed, Config.Valid;
    if c.table[s.done] == s.current {
      FreedBuffers(s, s.done);
      hide FreeBuffers;
      ClosedBuffers(c, s, CommitForward(c, s), d);
    } else {
      OpenBuffers(c, s, CommitForward(c, s), d);
    }
    hide BuffersOk;
  }

  lemma ClosedBuffers(c: Config, s: State, s': State, d: Plain)
    requires c.Sized() && BuffersOk(c, s, d) && d.phase.Forward?
    requires c.Passed(d.current + 1) == c.Passed(d.current) + 1
    requires forall tag :: tag in s'.buf <==> tag in s.buf
    requires forall tag | tag in s.buf :: s'.buf[tag] == if tag.group == c.Passed(d.current) then None else s.buf[tag]
    ensures BuffersOk(c, s', Ended(d))
  {
    hide Config.Passed;
  }

  lemma OpenBuffers(c: Config, s: State, s': State, d: Plain)
    requires c.Sized() && BuffersOk(c, s, d) && d.phase.Forward?
    requires c.Passed(d.current + 1) == c.Passed(d.current) && s'.buf == s.buf
    ensures BuffersOk(c, s', Ended(d))
  {
    hide Config.Passed;
  }

  lemma FreedBuffers(s: State, g: nat)
    ensures forall tag :: tag in FreeBuffers(s, g).buf <==> tag in s.buf
    ensures forall tag | tag in s.buf :: FreeBuffers(s, g).buf[tag] == if tag.group == g then None else s.buf[tag]
  {
  }

  lemma EndLayerLeft(c: Config, s: State, d: Plain)
    requires c.Valid() && CanCommitForward(c, s) && LeftOk(c, s) && s.current == d.current
    requires d.phase.Forward? && PlainOk(c, d) && s.slots.Keys == d.items.Keys
    ensures LeftOk(c, CommitForward(c, s))
  {
    EndLayerMoves(c, s);
    CommitForwardBuffers(c, s);
    var s' := CommitForward(c, s);
    forall tag | tag in s'.slots
      ensures if Departs(c, tag.group) then tag.group in s'.away ==> s'.slots[tag].Away? else s'.slots[tag].Live?
    {
      assert tag in d.items;
    }
  }

  lemma EndLayerKeeps(c: Config, s: State, d: Plain)
    requires c.Valid() && Inv(c, s, d) && Enabled(c, d, EndLayer)
    ensures CanCommitForward(c, s) && Inv(c, CommitForward(c, s), PlainStep(c, d, EndLayer))
  {
    PlainKeeps(c, d, EndLayer);
    c.PassedBelow(d.current);
    EndLayerSlots(c, s, d);
    EndLayerProgress(c, s, d);
    EndLayerBuffers(c, s, d);
    EndLayerLeft(c, s, d);
    EndLayerLog(c, s, d);
  }

  /** Re-entering a layer. */

  ghost function Entered(d: Plain): Plain
    requires d.current > 0
  {
    d.(phase := Backward, current := d.current - 1)
  }

  /** A window is entered from behind exactly when its group is the last one still away. */
  ghost predicate EnterFacts(c: Config, s: State, d: Plain)
    requires c.Sized()
  {
    var m := c.Passed(d.current);
    && s.current == d.current > 0
    && s.done == (if m == 0 then 1 else m)
    && AwayCount(c, d) == m
    && (if c.table[s.done - 1] == d.current - 1
        then m > 0 && c.Passed(d.current - 1) == m - 1
        else c.Passed(d.current - 1) == m)
  }

  lemma EnterCount(c: Config, s: State, d: Plain)
    requires c.Valid() && Enabled(c, d, EnterLayer) && d.current <= c.layers
    requires s.current == d.current
    requires s.done == if d.phase.Backward? && c.Passed(d.current) == 0 then 1 else c.Passed(d.current)
    ensures EnterFacts(c, s, d)
  {
    c.PassedBelow(d.current);
    c.PassedDown(d.current);
    hide Config.Passed, Config.Valid;
  }

  lemma ReloadKeeps(c: Config, s: State, d: Plain, g: nat)
    requires OrderOk(s) && SlotsOk(s, d) && g in s.away && g < c.groups
    requires forall tag | tag in d.items :: d.items[tag].WellShaped()
    ensures CanReload(c, s, g) && SlotsOk(BulkReload(c, s, g), d) && OrderOk(BulkReload(c, s, g))
  {
  }

  lemma EnterSlots(c: Config, s: State, d: Plain)
    requires c.Sized() && OrderOk(s) && SlotsOk(s, d) && 0 < s.done <= c.groups && 0 < s.current
    requires forall tag | tag in d.items :: d.items[tag].WellShaped()
    requires c.table[s.done - 1] == s.current - 1 ==> s.done - 1 in s.away
    ensures CanCommitBackward(c, s)
    ensures SlotsOk(CommitBackward(c, s), d) && OrderOk(CommitBackward(c, s))
  {
    var entered := s.(current := s.current - 1);
    SlotsOnly(s, entered, d);
    var moved := entered;
    if c.table[s.done - 1] == s.current - 1 {
      ReloadKeeps(c, s, d, s.done - 1);
      ReloadKeeps(c, entered, d, s.done - 1);
      moved := BulkReload(c, entered, s.done - 1);
    }
    assert CanCommitBackward(c, s);
    hide SlotsOk, OrderOk, RestoredSlots, AllViewable;
    SlotsOnly(moved, CommitBackward(c, s), d);
  }

  lemma EnterMoves(c: Config, s: State)
    requires c.Sized() && CanCommitBackward(c, s)
    ensures var back := c.table[s.done - 1] == s.current - 1; var s' := CommitBackward(c, s);
      && s'.current == s.current - 1 && s'.count == s.count && s'.buf == s.buf
      && s'.slots.Keys == s.slots.Keys
      && s'.away == (if back then s.away - {s.done - 1} else s.away)
      && s'.log == (if back then s.log + [Reloaded(s.done - 1)] else s.log)
      && s'.done == (if s.current == 1 then 0 else if back && s.done > 1 then s.done - 1 else s.done)
  {
  }

  lemma EnterProgress(c: Config, s: State, d: Plain)
    requires c.Sized() && EnterFacts(c, s, d) && ProgressOk(c, s, d) && CanCommitBackward(c, s) && s.count == 0
    ensures ProgressOk(c, CommitBackward(c, s), Entered(d))
  {
    EnterMoves(c, s);
    assert c.Passed(0) == 0;
  }

  lemma ReturnOneMore(n: nat, m: nat)
    requires 0 < m <= n
    ensures Returns(n, m - 1) == Returns(n, m) + [Reloaded(m - 1)]
  {
  }

  lemma AppendInside(r: seq<Move>, n: seq<Move>, m: seq<Move>, last: seq<Move>)
    ensures r + (n + m) + last == r + (n + (m + last))
  {
  }

  /** Before a layer is re-entered all groups have left and those of the layers above have returned. */
  lemma LogBeforeEntering(c: Config, d: Plain)
    requires c.Sized() && AwayCount(c, d) == c.Passed(d.current)
    requires d.phase.Forward? ==> c.Passed(d.current) == c.groups
    ensures ExpectedLog(c, d) == Rounds(c, d.rounds) + (Departures(c.groups) + Returns(c.groups, c.Passed(d.current)))
  {
    if d.phase.Forward? {
      assert Returns(c.groups, c.groups) == [];
    }
  }

  lemma LogAfterEntering(c: Config, d: Plain)
    requires c.Sized() && d.current > 0
    ensures ExpectedLog(c, Entered(d)) ==
      Rounds(c, d.rounds) + (Departures(c.groups) + Returns(c.groups, c.Passed(d.current - 1)))
  {
  }

  lemma EnterLog(c: Config, s: State, d: Plain)
    requires c.Sized() && EnterFacts(c, s, d) && CanCommitBackward(c, s)
    requires d.phase.Forward? ==> c.Passed(d.current) == c.groups
    requires s.log == ExpectedLog(c, d)
    ensures CommitBackward(c, s).log == ExpectedLog(c, Entered(d))
  {
    EnterMoves(c, s);
    LogBeforeEntering(c, d);
    LogAfterEntering(c, d);
    hide AwayCount, Rounds, Departures, Returns, CommitBackward, CanCommitBackward, Config.Passed, ExpectedLog;
    var m := c.Passed(d.current);
    if c.table[s.done - 1] == d.current - 1 {
      assert CommitBackward(c, s).log == ExpectedLog(c, d) + [Reloaded(m - 1)];
      ReturnOneMore(c.groups, m);
      AppendInside(Rounds(c, d.rounds), Departures(c.groups), Returns(c.groups, m), [Reloaded(m - 1)]);
    } else {
      assert CommitBackward(c, s).log == ExpectedLog(c, d);
    }
  }

  lemma EnterBuffers(c: Config, s: State, d: Plain)
    requires c.Valid() && BuffersOk(c, s, d) && Enabled(c, d, EnterLayer) && CanCommitBackward(c, s)
    ensures BuffersOk(c, CommitBackward(c, s), Entered(d))
  {
    EnterMoves(c, s);
    c.PassedBelow(d.current);
    var s' := CommitBackward(c, s);
    assert forall tag :: tag in s'.slots <==> tag in s.slots;
  }

  lemma EnterLeft(c: Config, s: State)
    requires c.Valid() && CanCommitBackward(c, s) && LeftOk(c, s)
    ensures LeftOk(c, CommitBackward(c, s))
  {
    EnterMoves(c, s);
    var s' := CommitBackward(c, s);
    forall tag | tag in s'.slots
      ensures if Departs(c, tag.group) then tag.group in s'.away ==> s'.slots[tag].Away? else s'.slots[tag].Live?
    {
    }
  }

  /** A finished pass leaves the handler as it was created. */
  lemma SettleKeeps(c: Config, s: State, d: Plain)
    requires c.Sized() && OrderOk(s) && SlotsOk(s, d) && ProgressOk(c, s, d) && BuffersOk(c, s, d) && LeftOk(c, s)
    requires s.log == ExpectedLog(c, d) && d.phase.Backward? && d.count == 0
    ensures SlotsOk(s, Settle(d)) && ProgressOk(c, s, Settle(d)) && BuffersOk(c, s, Settle(d))
    ensures s.log == ExpectedLog(c, Settle(d))
  {
    if d.current == 0 && d.items == map[] {
      assert c.Passed(0) == 0;
      assert ExpectedLog(c, Settle(d)) == Rounds(c, d.rounds + 1);
      assert Rounds(c, d.rounds) + (Departures(c.groups) + Returns(c.groups, 0)) == Rounds(c, d.rounds + 1);
    }
  }

  lemma EnterLayerKeeps(c: Config, s: State, d: Plain)
    requires c.Valid() && Inv(c, s, d) && Enabled(c, d, EnterLayer)
    ensures CanCommitBackward(c, s) && Inv(c, CommitBackward(c, s), PlainStep(c, d, EnterLayer))
  {
    PlainKeeps(c, d, EnterLayer);
    c.PassedBelow(d.current);
    EnterCount(c, s, d);
    EnterSlots(c, s, d);
    hide SlotsOk, OrderOk, LeftOk, ExpectedLog;
    EnterProgress(c, s, d);
    EnterLog(c, s, d);
    EnterBuffers(c, s, d);
    EnterLeft(c, s);
    SettleKeeps(c, CommitBackward(c, s), Entered(d));
  }

  /** Fetching a saved tensor. */

  lemma PopSlots(s: State, d: Plain, tag: Tag)
    requires OrderOk(s) && SlotsOk(s, d)
    ensures OrderOk(Pop(s, tag)) && SlotsOk(Pop(s, tag), d.(items := d.items - {tag}))
  {
    WithoutKeepsOrder(s, tag);
    forall other | other in Pop(s, tag).slots
      ensures StandsFor(Pop(s, tag), other, d.items[other])
    {
      assert StandsFor(s, other, d.items[other]);
    }
  }

  /** A tensor of a re-entered layer is back on the device, and is the one that was pushed. */
  lemma FetchIsExact(c: Config, s: State, d: Plain, tag: Tag)
    requires c.Valid() && SlotsOk(s, d) && ProgressOk(c, s, d) && Enabled(c, d, Fetch(Tagged(tag)))
    ensures tag in s.slots && s.slots[tag] == Live(d.items[tag])
  {
    assert StandsFor(s, tag, d.items[tag]);
    c.PassedBelow(d.current);
  }

  lemma FetchRest(c: Config, s: State, d: Plain, tag: Tag)
    requires c.Sized() && ProgressOk(c, s, d) && BuffersOk(c, s, d) && LeftOk(c, s)
    requires s.log == ExpectedLog(c, d)
    ensures var s', d' := Pop(s, tag), d.(items := d.items - {tag});
      ProgressOk(c, s', d') && BuffersOk(c, s', d') && LeftOk(c, s') && s'.log == ExpectedLog(c, d')
  {
    var d' := d.(items := d.items - {tag});
    assert AwayCount(c, d') == AwayCount(c, d);
  }

  lemma FetchKeeps(c: Config, s: State, d: Plain, tag: Tag)
    requires c.Valid() && Inv(c, s, d) && Enabled(c, d, Fetch(Tagged(tag)))
    ensures CanPop(s, tag) && s.slots[tag].tensor == d.items[tag]
    ensures Inv(c, Pop(s, tag), PlainStep(c, d, Fetch(Tagged(tag))))
  {
    PlainKeeps(c, d, Fetch(Tagged(tag)));
    FetchIsExact(c, s, d, tag);
    PopSlots(s, d, tag);
    FetchRest(c, s, d, tag);
    SettleKeeps(c, Pop(s, tag), d.(items := d.items - {tag}));
  }

  /** Whole runs. */

  /** The steps `es` are ones that training can make, in this order. */
  ghost predicate Legal(c: Config, d: Plain, es: seq<Event>)
    decreases |es|
  {
    es != [] ==> Enabled(c, d, es[0]) && Legal(c, PlainStep(c, d, es[0]), es[1..])
  }

  ghost function PlainRun(c: Config, d: Plain, es: seq<Event>): (Plain, seq<Answer>)
    requires Legal(c, d, es)
    decreases |es|
  {
    if es == [] then (d, [])
    else
      var rest := PlainRun(c, PlainStep(c, d, es[0]), es[1..]);
      (rest.0, [PlainAnswer(c, d, es[0])] + rest.1)
  }

  /** No assertion of the handler fails and no dictionary lookup misses along `es`. */
  ghost predicate SafeRun(c: Config, s: State, es: seq<Event>)
    requires c.Sized()
    decreases |es|
  {
    es != [] ==> Safe(c, s, es[0]) && SafeRun(c, HandlerStep(c, s, es[0]), es[1..])
  }

  ghost function HandlerRun(c: Config, s: State, es: seq<Event>): (State, seq<Answer>)
    requires c.Sized() && SafeRun(c, s, es)
    decreases |es|
  {
    if es == [] then (s, [])
    else
      var rest := HandlerRun(c, HandlerStep(c, s, es[0]), es[1..]);
      (rest.0, [HandlerAnswer(c, s, es[0])] + rest.1)
  }

  lemma StepKeeps(c: Config, s: State, d: Plain, e: Event)
    requires c.Valid() && Inv(c, s, d) && Enabled(c, d, e)
    ensures Safe(c, s, e) && HandlerAnswer(c, s, e) == PlainAnswer(c, d, e)
    ensures Inv(c, HandlerStep(c, s, e), PlainStep(c, d, e))
  {
    match e
    case Save(t, need) => if need { SaveKeeps(c, s, d, t); }
    case EndLayer => EndLayerKeeps(c, s, d);
    case EnterLayer => EnterLayerKeeps(c, s, d);
    case Fetch(Direct(_)) =>
    case Fetch(Tagged(tag)) => FetchKeeps(c, s, d, tag);
  }

  lemma {:induction false} RunKeeps(c: Config, s: State, d: Plain, es: seq<Event>)
    requires c.Valid() && Inv(c, s, d) && Legal(c, d, es)
    ensures SafeRun(c, s, es) && HandlerRun(c, s, es).1 == PlainRun(c, d, es).1
    ensures Inv(c, HandlerRun(c, s, es).0, PlainRun(c, d, es).0)
    decreases |es|
  {
    if es != [] {
      StepKeeps(c, s, d, es[0]);
      RunKeeps(c, HandlerStep(c, s, es[0]), PlainStep(c, d, es[0]), es[1..]);
    }
  }

  /** Over any number of passes, the handler cannot be told from the plain dictionary. */
  lemma OffloadIsTransparent(layers: nat, groups: nat, es: seq<Event>)
    requires 1 <= groups <= layers && Legal(Standard(layers, groups), FRESH, es)
    ensures SafeRun(Standard(layers, groups), INITIAL, es)
    ensures HandlerRun(Standard(layers, groups), INITIAL, es).1 == PlainRun(Standard(layers, groups), FRESH, es).1
  {
    StandardIsValid(layers, groups);
    InitialInv(Standard(layers, groups));
    RunKeeps(Standard(layers, groups), INITIAL, FRESH, es);
  }

  /** After `n` full passes the handler is as new, having moved every group out in order and back
      in reverse order in each of them. */
  lemma PassesRestoreHandler(layers: nat, groups: nat, es: seq<Event>, n: nat)
    requires 1 <= groups <= layers && Legal(Standard(layers, groups), FRESH, es)
    requires PlainRun(Standard(layers, groups), FRESH, es).0 == FRESH.(rounds := n)
    ensures SafeRun(Standard(layers, groups), INITIAL, es)
    ensures HandlerRun(Standard(layers, groups), INITIAL, es).0 ==
      INITIAL.(log := Rounds(Standard(layers, groups), n))
  {
    var c := Standard(layers, groups);
    StandardIsValid(layers, groups);
    InitialInv(c);
    RunKeeps(c, INITIAL, FRESH, es);
    var s, d := HandlerRun(c, INITIAL, es).0, FRESH.(rounds := n);
    AsNew(c, s, d);
  }

  lemma SomeTag(order: seq<Tag>)
    requires order != []
    ensures exists tag :: tag in order
  {
    assert order[0] in order;
  }

  lemma AsNew(c: Config, s: State, d: Plain)
    requires c.Valid() && Inv(c, s, d) && d == FRESH.(rounds := d.rounds)
    ensures s == INITIAL.(log := Rounds(c, d.rounds))
  {
    assert s.slots == map[];
    if s.order != [] {
      SomeTag(s.order);
    }
    assert s.away == map[];
    assert s.buf == map[];
    c.PassedBelow(0);
    assert s.log == Rounds(c, d.rounds) + Departures(0);
  }

  lemma {:induction false} DeparturesAt(n: nat, g: nat)
    requires g < n
    ensures |Departures(n)| == n && Departures(n)[g] == Offloaded(g)
  {
    if g == n - 1 {
      if n > 1 { DeparturesAt(n - 1, 0); }
    } else {
      DeparturesAt(n - 1, g);
    }
  }

  lemma {:induction false} ReturnsAt(n: nat, m: nat, g: nat)
    requires m <= g < n
    ensures |Returns(n, m)| == n - m && Returns(n, m)[n - 1 - g] == Reloaded(g)
    decreases n - m
  {
    if g > m {
      ReturnsAt(n, m + 1, g);
    } else if m + 1 < n {
      ReturnsAt(n, m + 1, m + 1);
    }
  }

  /** A layer is re-entered only when the tensors of the layers above it have been fetched. */
  ghost predicate InOrder(d: Plain, e: Event) {
    e.EnterLayer? ==> forall tag | tag in d.items :: tag.group < d.current
  }

  ghost predicate Orderly(c: Config, d: Plain, es: seq<Event>)
    requires Legal(c, d, es)
    decreases |es|
  {
    es != [] ==> InOrder(d, es[0]) && Orderly(c, PlainStep(c, d, es[0]), es[1..])
  }

  /** A pass that saves a tensor in every layer and fetches each on the way back. */

  function Climb(t: Tensor, n: nat): seq<Event> {
    if n == 0 then [] else [Save(t, true), EndLayer] + Climb(t, n - 1)
  }

  function Descend(n: nat): seq<Event> {
    if n == 0 then [] else [EnterLayer, Fetch(Tagged(Tag(n - 1, 0)))] + Descend(n - 1)
  }

  function OnePerLayer(t: Tensor, n: nat): (items: map<Tag, Tensor>)
    ensures forall tag | tag in items :: tag.group < n && items[tag] == t
  {
    if n == 0 then map[] else OnePerLayer(t, n - 1)[Tag(n - 1, 0) := t]
  }

  lemma TwoSteps(c: Config, d: Plain, e: Event, f: Event, es: seq<Event>)
    requires Enabled(c, d, e) && Enabled(c, PlainStep(c, d, e), f)
    requires Legal(c, PlainStep(c, PlainStep(c, d, e), f), es)
    ensures Legal(c, d, [e, f] + es)
    ensures InOrder(d, e) && InOrder(PlainStep(c, d, e), f) && Orderly(c, PlainStep(c, PlainStep(c, d, e), f), es) ==>
      Orderly(c, d, [e, f] + es)
    ensures PlainRun(c, d, [e, f] + es).0 == PlainRun(c, PlainStep(c, PlainStep(c, d, e), f), es).0
  {
    var all := [e, f] + es;
    assert all[1..] == [f] + es && all[1..][1..] == es;
    hide PlainStep, Enabled, InOrder;
    assert Legal(c, PlainStep(c, d, e), all[1..]);
  }

  lemma ClimbStep(c: Config, t: Tensor, i: nat, rounds: nat)
    requires i < c.layers && t.WellShaped()
    ensures var d := Plain(Forward, i, 0, OnePerLayer(t, i), rounds);
      && Enabled(c, d, Save(t, true)) && Enabled(c, PlainStep(c, d, Save(t, true)), EndLayer)
      && InOrder(d, Save(t, true)) && InOrder(PlainStep(c, d, Save(t, true)), EndLayer)
      && PlainStep(c, PlainStep(c, d, Save(t, true)), EndLayer) ==
         Plain(Forward, i + 1, 0, OnePerLayer(t, i + 1), rounds)
  {
  }

  lemma DescentStep(c: Config, t: Tensor, n: nat, phase: Phase, rounds: nat)
    requires 0 < n <= c.layers && (phase.Forward? ==> n == c.layers)
    ensures var d, fetch := Plain(phase, n, 0, OnePerLayer(t, n), rounds), Fetch(Tagged(Tag(n - 1, 0)));
      && Enabled(c, d, EnterLayer) && Enabled(c, PlainStep(c, d, EnterLayer), fetch)
      && InOrder(d, EnterLayer) && InOrder(PlainStep(c, d, EnterLayer), fetch)
      && PlainStep(c, PlainStep(c, d, EnterLayer), fetch) ==
         if n == 1 then FRESH.(rounds := rounds + 1) else Plain(Backward, n - 1, 0, OnePerLayer(t, n - 1), rounds)
  {
    var items := OnePerLayer(t, n);
    assert Tag(n - 1, 0) in items && items - {Tag(n - 1, 0)} == OnePerLayer(t, n - 1);
    if n > 1 {
      assert Tag(n - 2, 0) in OnePerLayer(t, n - 1);
    }
  }

  lemma {:induction false} DescentIsLegal(c: Config, t: Tensor, n: nat, phase: Phase, rounds: nat)
    requires 0 < n <= c.layers && (phase.Forward? ==> n == c.layers)
    ensures Legal(c, Plain(phase, n, 0, OnePerLayer(t, n), rounds), Descend(n))
    ensures Orderly(c, Plain(phase, n, 0, OnePerLayer(t, n), rounds), Descend(n))
    ensures PlainRun(c, Plain(phase, n, 0, OnePerLayer(t, n), rounds), Descend(n)).0 == FRESH.(rounds := rounds + 1)
  {
    hide Enabled, PlainStep, InOrder;
    DescentStep(c, t, n, phase, rounds);
    if n > 1 {
      DescentIsLegal(c, t, n - 1, Backward, rounds);
    }
    var d := Plain(phase, n, 0, OnePerLayer(t, n), rounds);
    TwoSteps(c, d, EnterLayer, Fetch(Tagged(Tag(n - 1, 0))), Descend(n - 1));
  }

  lemma {:induction false} ClimbIsLegal(c: Config, t: Tensor, i: nat, rounds: nat)
    requires i <= c.layers && 0 < c.layers && t.WellShaped()
    ensures var d := Plain(Forward, i, 0, OnePerLayer(t, i), rounds);
      var events := Climb(t, c.layers - i) + Descend(c.layers);
      Legal(c, d, events) && Orderly(c, d, events) && PlainRun(c, d, events).0 == FRESH.(rounds := rounds + 1)
    decreases c.layers - i
  {
    hide Enabled, PlainStep, InOrder;
    if i == c.layers {
      DescentIsLegal(c, t, i, Forward, rounds);
      assert Climb(t, 0) + Descend(c.layers) == Descend(c.layers);
    } else {
      var rest := Climb(t, c.layers - (i + 1)) + Descend(c.layers);
      assert Climb(t, c.layers - i) + Descend(c.layers) == [Save(t, true), EndLayer] + rest;
      ClimbStep(c, t, i, rounds);
      ClimbIsLegal(c, t, i + 1, rounds);
      TwoSteps(c, Plain(Forward, i, 0, OnePerLayer(t, i), rounds), Save(t, true), EndLayer, rest);
    }
  }

  /** Such a pass is one that training can make, in order, and it is a full one. */
  lemma FullPassExists(c: Config, t: Tensor, rounds: nat)
    requires 0 < c.layers && t.WellShaped()
    ensures Legal(c, FRESH.(rounds := rounds), Climb(t, c.layers) + Descend(c.layers))
    ensures Orderly(c, FRESH.(rounds := rounds), Climb(t, c.layers) + Descend(c.layers))
    ensures PlainRun(c, FRESH.(rounds := rounds), Climb(t, c.layers) + Descend(c.layers)).0 ==
      FRESH.(rounds := rounds + 1)
  {
    ClimbIsLegal(c, t, 0, rounds);
  }

  /** In one pass the moves are exactly: group `g` out as the `g`-th move, and back in as the
      `g`-th move from the end. */
  lemma PassMovesEachGroupOnce(c: Config, i: nat)
    requires c.Sized() && i < 2 * c.groups
    ensures |Departures(c.groups) + Returns(c.groups, 0)| == 2 * c.groups
    ensures (Departures(c.groups) + Returns(c.groups, 0))[i] ==
      if i < c.groups then Offloaded(i) else Reloaded(2 * c.groups - 1 - i)
  {
    DeparturesAt(c.groups, 0);
    ReturnsAt(c.groups, 0, 0);
    if i < c.groups {
      DeparturesAt(c.groups, i);
    } else {
      ReturnsAt(c.groups, 0, 2 * c.groups - 1 - i);
    }
  }

  /** Residency. */

  /** The groups with a tensor held on the device by the slots or by the buffers. */
  ghost function Resident(s: State): set<nat> {
    (set tag | tag in s.slots && s.slots[tag].Live? :: tag.group) +
    (set tag | tag in s.buf && s.buf[tag].Some? :: tag.group)
  }

  ghost predicate NoneAbove(d: Plain) {
    forall tag | tag in d.items :: tag.group <= d.current
  }

  lemma {:induction false} OrderlyKeeps(c: Config, d: Plain, es: seq<Event>)
    requires c.Valid() && PlainOk(c, d) && Legal(c, d, es) && Orderly(c, d, es) && NoneAbove(d)
    ensures NoneAbove(PlainRun(c, d, es).0)
    decreases |es|
  {
    if es != [] {
      PlainKeeps(c, d, es[0]);
      OrderlyKeeps(c, PlainStep(c, d, es[0]), es[1..]);
    }
  }

  /** Of a group whose window has closed nothing is on the device, in the slots or in the buffers. */
  ghost predicate ClosedAreGone(c: Config, s: State) {
    forall g | g in Resident(s) :: c.Passed(s.current) <= g
  }

  lemma LiveIsOpen(c: Config, s: State, d: Plain, tag: Tag)
    requires c.Valid() && ProgressOk(c, s, d) && LeftOk(c, s) && (c.groups < c.layers || c.layers == 1)
    requires d.current <= c.layers && tag in s.slots && s.slots[tag].Live?
    ensures c.Passed(d.current) <= tag.group
  {
    c.PassedBelow(d.current);
    assert tag.group in s.away <==> tag.group < AwayCount(c, d);
  }

  lemma InvFrees(c: Config, s: State, d: Plain)
    requires c.Valid() && Inv(c, s, d) && (c.groups < c.layers || c.layers == 1)
    ensures ClosedAreGone(c, s)
  {
    forall tag | tag in s.slots && s.slots[tag].Live?
      ensures c.Passed(d.current) <= tag.group
    {
      LiveIsOpen(c, s, d, tag);
    }
    hide SlotsOk, LeftOk, OrderOk, PlainOk, Config.Valid;
  }

  /** What is resident lies between the first open window and the layer being computed. */
  lemma ResidentInWindow(c: Config, s: State, d: Plain)
    requires c.Valid() && Inv(c, s, d) && NoneAbove(d) && c.groups < c.layers
    ensures forall g :: g in Resident(s) ==> c.Passed(d.current) <= g <= d.current && g < c.layers
  {
    InvFrees(c, s, d);
    forall g | g in Resident(s)
      ensures g <= d.current && g < c.layers
    {
      assert exists tag :: tag in d.items && tag.group == g;
    }
  }

  ghost function Neighbours(layer: nat): set<nat> {
    {layer, if layer == 0 then 0 else layer - 1}
  }

  lemma OneLayerBehind(c: Config, layer: nat)
    requires c.Valid() && c.groups + 1 == c.layers && layer <= c.layers
    requires forall i :: 0 <= i < c.groups ==> c.table[i] == i + 1
    ensures layer <= c.Passed(layer) + 1
  {
    var m := c.Passed(layer);
    assert m < c.groups ==> c.table[m] == m + 1;
  }

  lemma WithinNeighbours(groups: set<nat>, layer: nat)
    requires forall g :: g in groups ==> g <= layer <= g + 1
    ensures groups <= Neighbours(layer) && |groups| <= 2
  {
    SubsetSize(groups, Neighbours(layer));
  }

  /** With all layers but one offloaded, as the handler is created, at most two groups are on the
      device at any point of a run: the one being computed and the one below it. */
  lemma AtMostTwoResident(layers: nat, es: seq<Event>)
    requires 2 <= layers
    requires Legal(Standard(layers, layers - 1), FRESH, es) && Orderly(Standard(layers, layers - 1), FRESH, es)
    ensures SafeRun(Standard(layers, layers - 1), INITIAL, es)
    ensures var s := HandlerRun(Standard(layers, layers - 1), INITIAL, es).0;
      Resident(s) <= Neighbours(s.current) && |Resident(s)| <= 2
  {
    var c := Standard(layers, layers - 1);
    StandardIsValid(layers, layers - 1);
    InitialInv(c);
    RunKeeps(c, INITIAL, FRESH, es);
    OrderlyKeeps(c, FRESH, es);
    var s, d := HandlerRun(c, INITIAL, es).0, PlainRun(c, FRESH, es).0;
    ResidentInWindow(c, s, d);
    OneLayerBehind(c, d.current);
    WithinNeighbours(Resident(s), d.current);
  }

  lemma SubsetSize(a: set<nat>, b: set<nat>)
    requires a <= b
    ensures |a| <= |b|
  {
    assert b == a + (b - a);
  }

  /** Along a run what is on the device lies between the first open window and the layer computed. */
  lemma ResidentInWindowAlongRun(layers: nat, groups: nat, es: seq<Event>)
    requires 1 <= groups < layers
    requires Legal(Standard(layers, groups), FRESH, es) && Orderly(Standard(layers, groups), FRESH, es)
    ensures SafeRun(Standard(layers, groups), INITIAL, es)
    ensures var s := HandlerRun(Standard(layers, groups), INITIAL, es).0;
      forall g :: g in Resident(s) ==> Standard(layers, groups).Passed(s.current) <= g <= s.current && g < layers
  {
    var c := Standard(layers, groups);
    StandardIsValid(layers, groups);
    InitialInv(c);
    RunKeeps(c, INITIAL, FRESH, es);
    OrderlyKeeps(c, FRESH, es);
    ResidentInWindow(c, HandlerRun(c, INITIAL, es).0, PlainRun(c, FRESH, es).0);
  }

  /** Offloading frees the device. */

  /** No slot of a group with host copies holds a tensor; until the window closes a buffer still may. */
  ghost predicate SlotsLetGo(s: State) {
    forall tag | tag in s.slots && tag.group in s.away :: s.slots[tag].Away?
  }

  ghost predicate FreesAlongRuns(c: Config)
    requires c.Valid()
  {
    forall es | Legal(c, FRESH, es) && SafeRun(c, INITIAL, es) :: ClosedAreGone(c, HandlerRun(c, INITIAL, es).0)
  }

  ghost predicate LetsGoAlongRuns(c: Config)
    requires c.Valid()
  {
    forall es | Legal(c, FRESH, es) && SafeRun(c, INITIAL, es) :: SlotsLetGo(HandlerRun(c, INITIAL, es).0)
  }

  /** Along every run, of a group whose window has closed nothing is left on the device, exactly when
      there are fewer groups than layers, or a single layer. The same condition decides whether slots
      let go of their tensors as soon as their group is copied out. */
  lemma FreesIffFewerGroups(layers: nat, groups: nat)
    requires 1 <= groups <= layers
    ensures Standard(layers, groups).Valid()
    ensures forall es | Legal(Standard(layers, groups), FRESH, es) :: SafeRun(Standard(layers, groups), INITIAL, es)
    ensures FreesAlongRuns(Standard(layers, groups)) <==> groups < layers || layers == 1
    ensures LetsGoAlongRuns(Standard(layers, groups)) <==> groups < layers || layers == 1
  {
    var c := Standard(layers, groups);
    StandardIsValid(layers, groups);
    forall es | Legal(c, FRESH, es)
      ensures SafeRun(c, INITIAL, es)
      ensures groups < layers || layers == 1 ==> ClosedAreGone(c, HandlerRun(c, INITIAL, es).0)
      ensures groups < layers || layers == 1 ==> SlotsLetGo(HandlerRun(c, INITIAL, es).0)
    {
      InitialInv(c);
      RunKeeps(c, INITIAL, FRESH, es);
      hide Legal, PlainRun, HandlerRun, SafeRun, Inv, ClosedAreGone, SlotsLetGo;
      if groups < layers || layers == 1 {
        InvFrees(c, HandlerRun(c, INITIAL, es).0, PlainRun(c, FRESH, es).0);
        InvLetsGo(c, HandlerRun(c, INITIAL, es).0, PlainRun(c, FRESH, es).0);
      }
    }
    if groups == layers > 1 {
      KeptAfterClosing(c);
    }
  }

  lemma InvLetsGo(c: Config, s: State, d: Plain)
    requires c.Valid() && Inv(c, s, d) && (c.groups < c.layers || c.layers == 1)
    ensures SlotsLetGo(s)
  {
    forall tag | tag in s.slots && tag.group in s.away
      ensures s.slots[tag].Away?
    {
      assert tag in d.items;
    }
  }

  const SCALAR := Tensor(0, [0], [])

  /** A layer that saves nothing, and one that saves a tensor. */
  const TWO_LAYERS := [EndLayer, Save(SCALAR, true), EndLayer]

  lemma TwoLayers(c: Config)
    requires 1 < c.layers
    ensures Legal(c, FRESH, TWO_LAYERS)
    ensures var d := PlainRun(c, FRESH, TWO_LAYERS).0;
      d.phase.Forward? && d.current == 2 && Tag(1, 0) in d.items
  {
    var d1, save := PlainStep(c, FRESH, EndLayer), Save(SCALAR, true);
    assert SCALAR.WellShaped() && Enabled(c, d1, save);
    var d2 := PlainStep(c, d1, save);
    assert Legal(c, PlainStep(c, d2, EndLayer), []);
    assert Legal(c, d2, [EndLayer] + []);
    TwoSteps(c, FRESH, EndLayer, save, [EndLayer]);
    assert TWO_LAYERS == [EndLayer, save] + [EndLayer];
  }

  /** The commit of layer 0 copies group 1 out, empty; a tensor then saved in layer 1 stays on the
      device when the group's window closes, for good. */
  lemma KeptAfterClosing(c: Config)
    requires c.Valid() && c.groups == c.layers > 1
    ensures Legal(c, FRESH, TWO_LAYERS) && SafeRun(c, INITIAL, TWO_LAYERS)
    ensures var s := HandlerRun(c, INITIAL, TWO_LAYERS).0;
      && Tag(1, 0) in s.slots && s.slots[Tag(1, 0)].Live? && 1 in s.away && c.Passed(s.current) == 2
      && !ClosedAreGone(c, s) && !SlotsLetGo(s)
  {
    TwoLayers(c);
    InitialInv(c);
    hide Legal, PlainRun, HandlerRun, SafeRun, Inv, ClosedAreGone, SlotsLetGo;
    RunKeeps(c, INITIAL, FRESH, TWO_LAYERS);
    KeptAfter(c, HandlerRun(c, INITIAL, TWO_LAYERS).0, PlainRun(c, FRESH, TWO_LAYERS).0);
  }

  lemma KeptAfter(c: Config, s: State, d: Plain)
    requires c.Valid() && Inv(c, s, d) && c.groups == c.layers > 1
    requires d.phase.Forward? && d.current == 2 && Tag(1, 0) in d.items
    ensures Tag(1, 0) in s.slots && s.slots[Tag(1, 0)].Live? && 1 in s.away && c.Passed(s.current) == 2
    ensures !ClosedAreGone(c, s) && !SlotsLetGo(s)
  {
    c.PassedIsUnique(2, 2);
    assert Tag(1, 0) in s.slots && s.slots[Tag(1, 0)].Live? && 1 in s.away;
    assert 1 in Resident(s);
  }

  /** What the handler holds, told from the plain run: a tensor of a group that left is known by key
      and shape, any other is held itself. */
  ghost function ExpectedSlots(c: Config, d: Plain): map<Tag, Slot>
    requires c.Sized()
  {
    map tag | tag in d.items ::
      if Departs(c, tag.group) && tag.group < AwayCount(c, d) then Away(d.items[tag].key, d.items[tag].shape)
      else Live(d.items[tag])
  }

  /** In the forward pass the buffers hold every tensor of a group to offload until its window closes. */
  ghost function ExpectedBuf(c: Config, d: Plain): map<Tag, Option<Tensor>> {
    map tag | tag in d.items && tag.group < c.groups ::
      if d.phase.Forward? && c.Passed(d.current) <= tag.group then Some(d.items[tag]) else None
  }

  lemma SlotsAreExact(c: Config, s: State, d: Plain)
    requires c.Sized() && SlotsOk(s, d) && ProgressOk(c, s, d) && LeftOk(c, s)
    ensures s.slots == ExpectedSlots(c, d)
  {
    var expected := ExpectedSlots(c, d);
    assert s.slots.Keys == expected.Keys;
    hide AwayCount, Config.Passed;
    forall tag | tag in s.slots
      ensures s.slots[tag] == expected[tag]
    {
      assert StandsFor(s, tag, d.items[tag]);
      assert tag.group in s.away <==> tag.group < AwayCount(c, d);
    }
  }

  lemma BuffersAreExact(c: Config, s: State, d: Plain)
    requires c.Sized() && BuffersOk(c, s, d)
    ensures s.buf == ExpectedBuf(c, d)
  {
    hide Config.Passed;
    assert s.buf.Keys == ExpectedBuf(c, d).Keys;
  }

  /** At every point of every run the dictionaries, the host copies, the counters and the moves made
      are determined by the plain run. */
  lemma StateAlongRun(layers: nat, groups: nat, es: seq<Event>)
    requires 1 <= groups <= layers && Legal(Standard(layers, groups), FRESH, es)
    ensures Standard(layers, groups).Valid() && SafeRun(Standard(layers, groups), INITIAL, es)
    ensures var c := Standard(layers, groups); var s, d := HandlerRun(c, INITIAL, es).0, PlainRun(c, FRESH, es).0;
      && s.slots == ExpectedSlots(c, d) && s.buf == ExpectedBuf(c, d)
      && (forall g :: g in s.away <==> 0 <= g < AwayCount(c, d))
      && s.current == d.current && s.count == d.count && s.log == ExpectedLog(c, d)
  {
    var c := Standard(layers, groups);
    StandardIsValid(layers, groups);
    InitialInv(c);
    RunKeeps(c, INITIAL, FRESH, es);
    SlotsAreExact(c, HandlerRun(c, INITIAL, es).0, PlainRun(c, FRESH, es).0);
    BuffersAreExact(c, HandlerRun(c, INITIAL, es).0, PlainRun(c, FRESH, es).0);
  }

  /** At every point of every run exactly these groups are on the device: of those that leave, the ones
      whose window has not closed, and all others; as far as they have saved tensors. */
  lemma ResidentExactly(layers: nat, groups: nat, es: seq<Event>)
    requires 1 <= groups <= layers && Legal(Standard(layers, groups), FRESH, es)
    ensures SafeRun(Standard(layers, groups), INITIAL, es)
    ensures var c := Standard(layers, groups); var s, d := HandlerRun(c, INITIAL, es).0, PlainRun(c, FRESH, es).0;
      forall g :: g in Resident(s) <==>
        (exists tag :: tag in d.items && tag.group == g) && (Departs(c, g) ==> c.Passed(d.current) <= g)
  {
    StateAlongRun(layers, groups, es);
    var c := Standard(layers, groups);
    var s, d := HandlerRun(c, INITIAL, es).0, PlainRun(c, FRESH, es).0;
    hide HandlerRun, PlainRun, SafeRun, Legal, ExpectedLog, Standard, Config.Passed, Departs;
    forall tag | tag in d.items
      ensures Held(s, tag) <==> (Departs(c, tag.group) ==> c.Passed(d.current) <= tag.group)
    {
      HeldExactly(c, s, d, tag);
    }
    hide ExpectedSlots, ExpectedBuf;
    ResidentIsHeld(s);
  }

  /** The device holds the tensor under `tag`. */
  ghost predicate Held(s: State, tag: Tag) {
    || (tag in s.slots && s.slots[tag].Live?)
    || (tag in s.buf && s.buf[tag].Some?)
  }

  lemma ResidentIsHeld(s: State)
    ensures forall g :: g in Resident(s) <==> exists tag: Tag :: Held(s, tag) && tag.group == g
  {
    forall tag | Held(s, tag)
      ensures tag.group in Resident(s)
    {
    }
  }

  lemma HeldExactly(c: Config, s: State, d: Plain, tag: Tag)
    requires c.Valid() && s.slots == ExpectedSlots(c, d) && s.buf == ExpectedBuf(c, d)
    ensures Held(s, tag) ==> tag in d.items
    ensures tag in d.items ==> (Held(s, tag) <==> (Departs(c, tag.group) ==> c.Passed(d.current) <= tag.group))
  {
    c.PassedBelow(d.current);
    hide Config.Passed, Config.Valid;
  }

  /** With as many groups as layers none but the first ever leaves the device. */
  lemma OnlyFirstGroupLeaves(layers: nat, es: seq<Event>, tag: Tag)
    requires 1 <= layers && Legal(Standard(layers, layers), FRESH, es)
    ensures SafeRun(Standard(layers, layers), INITIAL, es)
    ensures var s := HandlerRun(Standard(layers, layers), INITIAL, es).0;
      tag in s.slots && tag.group > 0 ==> s.slots[tag].Live?
  {
    var c := Standard(layers, layers);
    StandardIsValid(layers, layers);
    InitialInv(c);
    RunKeeps(c, INITIAL, FRESH, es);
  }

  /** The handler object, driven through a run. */
  method Drive(h: Handler, es: seq<Event>, ghost d: Plain) returns (answers: seq<Answer>)
    requires h.Valid() && Inv(h.config, h.Abs(), d) && Legal(h.config, d, es)
    modifies h
    ensures h.Valid() && Inv(h.config, h.Abs(), PlainRun(h.config, d, es).0)
    ensures answers == PlainRun(h.config, d, es).1
    decreases |es|
  {
    if es == [] {
      return [];
    }
    StepKeeps(h.config, h.Abs(), d, es[0]);
    var answer := Nothing;
    match es[0] {
      case Save(t, need) =>
        var saved := h.TensorPush(t, need);
        answer := Kept(saved);
      case EndLayer =>
        h.OnGroupCommitForward();
      case EnterLayer =>
        h.OnGroupCommitBackward();
      case Fetch(saved) =>
        var t := h.TensorPop(saved);
        answer := Got(t);
    }
    var rest := Drive(h, es[1..], PlainStep(h.config, d, es[0]));
    answers := [answer] + rest;
  }
}
