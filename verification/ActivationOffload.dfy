/** The double-buffered offload handler: its state, its steps as functions of that state, and the
    class that performs the steps in place. */
module ActivationOffload {
  import opened Options
  import opened OffloadWindow

  /** Storage address and data type of a tensor. A reloaded copy is identified with the address it
      was offloaded from: only which tensors share storage matters. */
  type Key = nat

  /** A tensor: the flat contents of its storage, read in the order of its shape. */
  datatype Tensor = Tensor(key: Key, data: seq<int>, shape: seq<nat>) {
    predicate WellShaped() {
      |data| == Numel(shape)
    }
  }

  function Numel(shape: seq<nat>): nat {
    if shape == [] then 1 else shape[0] * Numel(shape[1..])
  }

  /** A saved tensor is known by the group that pushed it and its position in the group. */
  datatype Tag = Tag(group: nat, index: nat)

  /** What autograd keeps for a saved tensor: a tag, or the tensor itself when it is not offloaded. */
  datatype Saved = Tagged(tag: Tag) | Direct(tensor: Tensor)

  /** A tensor held on the device, or the key and shape under which its host copy is found. */
  datatype Slot = Live(tensor: Tensor) | Away(key: Key, shape: seq<nat>)

  datatype Move = Offloaded(group: nat) | Reloaded(group: nat)

  /** The fields of the handler. `order` is the insertion order of the dictionary `slots`;
      `log` records the bulk moves made so far. */
  datatype State = State(
    current: nat,
    count: nat,
    order: seq<Tag>,
    slots: map<Tag, Slot>,
    buf: map<Tag, Option<Tensor>>,
    done: nat,
    away: map<nat, map<Key, seq<int>>>,
    log: seq<Move>)

  const INITIAL := State(0, 0, [], map[], map[], 0, map[], [])

  /** Every key of the dictionary occurs once in its insertion order. */
  ghost predicate OrderOk(s: State) {
    && (forall tag :: tag in s.order <==> tag in s.slots)
    && (forall i, j :: 0 <= i < j < |s.order| ==> s.order[i] != s.order[j])
  }

  lemma SameOrder(s: State, t: State)
    requires OrderOk(s) && t.order == s.order && t.slots == s.slots
    ensures OrderOk(t)
  {
  }

  /** Pushing. */

  predicate CanPush(s: State) {
    Tag(s.current, s.count) !in s.slots
  }

  function Push(c: Config, s: State, t: Tensor): State
    requires CanPush(s)
  {
    var tag := Tag(s.current, s.count);
    s.(count := s.count + 1,
       order := s.order + [tag],
       slots := s.slots[tag := Live(t)],
       buf := if s.current < c.groups then s.buf[tag := Some(t)] else s.buf)
  }

  /** Popping. */

  predicate CanPop(s: State, tag: Tag) {
    tag in s.slots && s.slots[tag].Live?
  }

  function Without(order: seq<Tag>, tag: Tag): (r: seq<Tag>)
    ensures forall t :: t in r ==> t in order
    ensures |r| <= |order|
  {
    if order == [] then []
    else if order[0] == tag then order[1..]
    else [order[0]] + Without(order[1..], tag)
  }

  function Pop(s: State, tag: Tag): State {
    s.(order := Without(s.order, tag), slots := s.slots - {tag}, buf := s.buf - {tag})
  }

  /** Bulk offload of a group: each storage key is copied out once, under the first tag that has it. */

  predicate AllLive(s: State, g: nat) {
    forall tag | tag in s.slots && tag.group == g :: s.slots[tag].Live?
  }

  function Copies(order: seq<Tag>, slots: map<Tag, Slot>, g: nat): map<Key, seq<int>> {
    if order == [] then map[]
    else
      var tag := order[|order| - 1];
      var copies := Copies(order[..|order| - 1], slots, g);
      if tag in slots && tag.group == g && slots[tag].Live? && slots[tag].tensor.key !in copies
      then copies[slots[tag].tensor.key := slots[tag].tensor.data]
      else copies
  }

  function ToAway(slot: Slot): Slot {
    if slot.Live? then Away(slot.tensor.key, slot.tensor.shape) else slot
  }

  /** The slots once the tags in `seen` have been looked at. */
  ghost function MarkedAway(s: State, seen: seq<Tag>, g: nat): map<Tag, Slot> {
    map tag | tag in s.slots :: if tag.group == g && tag in seen then ToAway(s.slots[tag]) else s.slots[tag]
  }

  function CopyOut(copies: map<Key, seq<int>>, t: Tensor): map<Key, seq<int>> {
    if t.key in copies then copies else copies[t.key := t.data]
  }

  lemma OrderAt(s: State, i: nat)
    requires OrderOk(s) && i < |s.order|
    ensures s.order[i] in s.slots && s.order[i] !in s.order[..i]
    ensures forall tag :: tag in s.order[..i + 1] <==> tag in s.order[..i] || tag == s.order[i]
  {
    assert s.order[..i + 1] == s.order[..i] + [s.order[i]];
    assert s.order[i] in s.order;
  }

  lemma UpdatedAt(m: map<Tag, Slot>, n: map<Tag, Slot>, tag: Tag)
    requires m.Keys == n.Keys && tag in m && forall other | other in m && other != tag :: n[other] == m[other]
    ensures n == m[tag := n[tag]]
    ensures n[tag] == m[tag] ==> n == m
  {
  }

  lemma CopyNext(s: State, i: nat, g: nat)
    requires AllLive(s, g) && i < |s.order| && s.order[i] in s.slots
    ensures Copies(s.order[..i + 1], s.slots, g) ==
      if s.order[i].group == g then CopyOut(Copies(s.order[..i], s.slots, g), s.slots[s.order[i]].tensor)
      else Copies(s.order[..i], s.slots, g)
  {
    assert s.order[..i + 1][..i] == s.order[..i];
  }

  /** One more tag looked at. */
  lemma MarkNext(s: State, i: nat, g: nat)
    requires OrderOk(s) && AllLive(s, g) && i < |s.order|
    ensures s.order[i] in s.slots && s.order[i] in MarkedAway(s, s.order[..i], g)
    ensures MarkedAway(s, s.order[..i], g)[s.order[i]] == s.slots[s.order[i]]
    ensures s.order[i].group == g ==>
      && s.slots[s.order[i]].Live?
      && var t, copies := s.slots[s.order[i]].tensor, Copies(s.order[..i], s.slots, g);
      && Copies(s.order[..i + 1], s.slots, g) == (if t.key in copies then copies else copies[t.key := t.data])
      && MarkedAway(s, s.order[..i + 1], g) == MarkedAway(s, s.order[..i], g)[s.order[i] := Away(t.key, t.shape)]
    ensures s.order[i].group != g ==>
      && Copies(s.order[..i + 1], s.slots, g) == Copies(s.order[..i], s.slots, g)
      && MarkedAway(s, s.order[..i + 1], g) == MarkedAway(s, s.order[..i], g)
  {
    OrderAt(s, i);
    CopyNext(s, i, g);
    hide OrderOk, Copies;
    UpdatedAt(MarkedAway(s, s.order[..i], g), MarkedAway(s, s.order[..i + 1], g), s.order[i]);
    hide MarkedAway;
  }

  function AwaySlots(slots: map<Tag, Slot>, g: nat): map<Tag, Slot> {
    map tag | tag in slots :: if tag.group == g then ToAway(slots[tag]) else slots[tag]
  }

  function BulkOffload(s: State, g: nat): State
    requires AllLive(s, g)
  {
    s.(slots := AwaySlots(s.slots, g),
       away := s.away[g := Copies(s.order, s.slots, g)],
       log := s.log + [Offloaded(g)])
  }

  /** No tag looked at, and all of them. */
  lemma MarkEnds(s: State, g: nat)
    requires OrderOk(s) && AllLive(s, g)
    ensures MarkedAway(s, s.order[..0], g) == s.slots && Copies(s.order[..0], s.slots, g) == map[]
    ensures MarkedAway(s, s.order[..|s.order|], g) == BulkOffload(s, g).slots
    ensures Copies(s.order[..|s.order|], s.slots, g) == Copies(s.order, s.slots, g)
    ensures OrderOk(BulkOffload(s, g))
  {
    assert s.order[..|s.order|] == s.order;
    assert BulkOffload(s, g).slots.Keys == s.slots.Keys;
  }

  /** Bulk reload of a group: each slot that left becomes a view, of its own shape, of the copy
      under its key. */

  predicate Viewable(copies: map<Key, seq<int>>, slot: Slot) {
    slot.Away? ==> slot.key in copies && |copies[slot.key]| == Numel(slot.shape)
  }

  predicate AllViewable(slots: map<Tag, Slot>, copies: map<Key, seq<int>>, g: nat) {
    forall tag | tag in slots && tag.group == g :: Viewable(copies, slots[tag])
  }

  predicate CanReload(c: Config, s: State, g: nat) {
    g < c.groups && g in s.away && AllViewable(s.slots, s.away[g], g)
  }

  function Restored(copies: map<Key, seq<int>>, slot: Slot): Slot
    requires Viewable(copies, slot)
  {
    if slot.Live? then slot else Live(Tensor(slot.key, copies[slot.key], slot.shape))
  }

  function RestoredSlots(slots: map<Tag, Slot>, copies: map<Key, seq<int>>, g: nat): map<Tag, Slot>
    requires AllViewable(slots, copies, g)
  {
    map tag | tag in slots :: if tag.group == g then Restored(copies, slots[tag]) else slots[tag]
  }

  /** The slots once the tags in `seen` have been looked at. */
  ghost function MarkedBack(s: State, copies: map<Key, seq<int>>, seen: seq<Tag>, g: nat): map<Tag, Slot>
    requires AllViewable(s.slots, copies, g)
  {
    map tag | tag in s.slots ::
      if tag.group == g && tag in seen then Restored(copies, s.slots[tag]) else s.slots[tag]
  }

  lemma MarkedBackAt(s: State, copies: map<Key, seq<int>>, i: nat, g: nat)
    requires OrderOk(s) && AllViewable(s.slots, copies, g) && i < |s.order|
    ensures s.order[i] in s.slots && MarkedBack(s, copies, s.order[..i], g)[s.order[i]] == s.slots[s.order[i]]
    ensures MarkedBack(s, copies, s.order[..i], g).Keys == s.slots.Keys
    ensures MarkedBack(s, copies, s.order[..i + 1], g).Keys == s.slots.Keys
    ensures forall tag | tag in s.slots && tag != s.order[i] ::
      MarkedBack(s, copies, s.order[..i + 1], g)[tag] == MarkedBack(s, copies, s.order[..i], g)[tag]
    ensures s.order[i].group == g ==> Viewable(copies, s.slots[s.order[i]])
    ensures MarkedBack(s, copies, s.order[..i + 1], g)[s.order[i]] ==
      if s.order[i].group == g then Restored(copies, s.slots[s.order[i]]) else s.slots[s.order[i]]
  {
    OrderAt(s, i);
    assert s.order[i] in s.order[..i + 1];
    hide OrderOk, Viewable, Restored;
  }

  lemma RestoreNext(s: State, copies: map<Key, seq<int>>, i: nat, g: nat)
    requires OrderOk(s) && AllViewable(s.slots, copies, g) && i < |s.order|
    ensures s.order[i] in s.slots && s.order[i] in MarkedBack(s, copies, s.order[..i], g)
    ensures MarkedBack(s, copies, s.order[..i], g)[s.order[i]] == s.slots[s.order[i]]
    ensures var slot := s.slots[s.order[i]];
      if s.order[i].group == g && slot.Away?
      then slot.key in copies && MarkedBack(s, copies, s.order[..i + 1], g) ==
           MarkedBack(s, copies, s.order[..i], g)[s.order[i] := Live(Tensor(slot.key, copies[slot.key], slot.shape))]
      else MarkedBack(s, copies, s.order[..i + 1], g) == MarkedBack(s, copies, s.order[..i], g)
  {
    MarkedBackAt(s, copies, i, g);
    hide OrderOk, AllViewable, MarkedBack;
    UpdatedAt(MarkedBack(s, copies, s.order[..i], g), MarkedBack(s, copies, s.order[..i + 1], g), s.order[i]);
  }

  function BulkReload(c: Config, s: State, g: nat): State
    requires CanReload(c, s, g)
  {
    s.(slots := RestoredSlots(s.slots, s.away[g], g), away := s.away - {g}, log := s.log + [Reloaded(g)])
  }

  lemma RestoreEnds(c: Config, s: State, g: nat)
    requires OrderOk(s) && CanReload(c, s, g)
    ensures MarkedBack(s, s.away[g], s.order[..0], g) == s.slots
    ensures MarkedBack(s, s.away[g], s.order[..|s.order|], g) == BulkReload(c, s, g).slots
    ensures OrderOk(BulkReload(c, s, g))
  {
    assert s.order[..|s.order|] == s.order;
    assert BulkReload(c, s, g).slots.Keys == s.slots.Keys;
  }

  /** The commit that ends a layer in the forward pass. */

  function Kickstart(s: State): State
    requires s.current == 0 ==> AllLive(s, 0)
  {
    if s.current == 0 then BulkOffload(s, 0) else s
  }

  function FreeBuffers(s: State, g: nat): State {
    s.(buf := map tag | tag in s.buf :: if tag.group == g then None else s.buf[tag])
  }

  predicate CanCommitForward(c: Config, s: State)
    requires c.Sized()
  {
    && (s.current == 0 ==> AllLive(s, 0))
    && s.done < c.groups
    && (c.table[s.done] == s.current && s.done + 1 < c.groups ==> AllLive(Kickstart(s), s.done + 1))
  }

  function CloseWindow(c: Config, s: State): State
    requires s.done + 1 < c.groups ==> AllLive(s, s.done + 1)
  {
    var freed := FreeBuffers(s, s.done);
    (if s.done + 1 < c.groups then BulkOffload(freed, s.done + 1) else freed).(done := s.done + 1)
  }

  function CommitForward(c: Config, s: State): State
    requires c.Sized() && CanCommitForward(c, s)
  {
    var kicked := Kickstart(s);
    var closed := if c.table[s.done] == s.current then CloseWindow(c, kicked) else kicked;
    closed.(current := s.current + 1, count := 0)
  }

  /** The commit that enters a layer in the backward pass. */

  predicate CanCommitBackward(c: Config, s: State)
    requires c.Sized()
  {
    && 0 < s.current
    && 0 < s.done <= c.groups
    && (c.table[s.done - 1] == s.current - 1 ==> CanReload(c, s, s.done - 1))
  }

  function CommitBackward(c: Config, s: State): State
    requires c.Sized() && CanCommitBackward(c, s)
  {
    var entered := s.(current := s.current - 1);
    var reloaded :=
      if c.table[s.done - 1] == entered.current
      then BulkReload(c, entered, s.done - 1).(done := if s.done > 1 then s.done - 1 else s.done)
      else entered;
    if entered.current == 0 then reloaded.(done := 0) else reloaded
  }

  /** The handler itself. */
  class Handler {
    const config: Config
    var layerWindowMap: map<nat, int>
    var currentGroup: nat
    var tensorCountCurrentGroup: nat
    var tagOrder: seq<Tag>
    var tensorTagToState: map<Tag, Slot>
    var tensorTagToBuf: map<Tag, Option<Tensor>>
    var offloadedGroupCount: nat
    var groupOffloadMapping: map<nat, map<Key, seq<int>>>
    ghost var log: seq<Move>

    ghost function Abs(): State
      reads this
    {
      State(currentGroup, tensorCountCurrentGroup, tagOrder, tensorTagToState, tensorTagToBuf,
            offloadedGroupCount, groupOffloadMapping, log)
    }

    ghost predicate Valid()
      reads this
    {
      && config.Valid()
      && OrderOk(Abs())
      && layerWindowMap == map i: nat | i < config.groups :: config.table[i]
    }

    constructor (numOffloadGroup: nat, numModelGroup: nat)
      requires 1 <= numOffloadGroup <= numModelGroup
      ensures Valid() && config == Standard(numModelGroup, numOffloadGroup) && Abs() == INITIAL
    {
      config := Standard(numModelGroup, numOffloadGroup);
      StandardIsValid(numModelGroup, numOffloadGroup);
      currentGroup, tensorCountCurrentGroup, offloadedGroupCount := 0, 0, 0;
      tagOrder, tensorTagToState, tensorTagToBuf, groupOffloadMapping := [], map[], map[], map[];
      log := [];
      var table := BuildWindowMap(numModelGroup, numOffloadGroup);
      layerWindowMap := table;
    }

    /** `needOffload` is false for stray tensors and those the filter keeps on the device. */
    method TensorPush(t: Tensor, needOffload: bool) returns (saved: Saved)
      requires Valid() && (needOffload ==> CanPush(Abs()))
      modifies this
      ensures Valid()
      ensures !needOffload ==> saved == Direct(t) && Abs() == old(Abs())
      ensures needOffload ==> saved == Tagged(Tag(old(currentGroup), old(tensorCountCurrentGroup)))
      ensures needOffload ==> Abs() == Push(config, old(Abs()), t)
    {
      if !needOffload {
        return Direct(t);
      }
      var tag := Tag(currentGroup, tensorCountCurrentGroup);
      tensorCountCurrentGroup := tensorCountCurrentGroup + 1;
      tensorTagToState := tensorTagToState[tag := Live(t)];
      tagOrder := tagOrder + [tag];
      if currentGroup < config.groups {
        tensorTagToBuf := tensorTagToBuf[tag := Some(t)];
      }
      saved := Tagged(tag);
    }

    method TensorPop(saved: Saved) returns (t: Tensor)
      requires Valid() && (saved.Tagged? ==> CanPop(Abs(), saved.tag))
      modifies this
      ensures Valid()
      ensures saved.Direct? ==> t == saved.tensor && Abs() == old(Abs())
      ensures saved.Tagged? ==> Live(t) == old(tensorTagToState[saved.tag])
      ensures saved.Tagged? ==> Abs() == Pop(old(Abs()), saved.tag)
    {
      if saved.Direct? {
        return saved.tensor;
      }
      t := tensorTagToState[saved.tag].tensor;
      WithoutKeepsOrder(Abs(), saved.tag);
      tensorTagToState := tensorTagToState - {saved.tag};
      tagOrder := Without(tagOrder, saved.tag);
      tensorTagToBuf := tensorTagToBuf - {saved.tag};
    }

    method BulkOffloadGroup(g: nat)
      requires Valid() && AllLive(Abs(), g)
      modifies this
      ensures Valid() && Abs() == BulkOffload(old(Abs()), g)
    {
      MarkEnds(Abs(), g);
      hide OrderOk, MarkedAway, Copies, AwaySlots, AllLive, Config.Valid;
      var copies := CopyOutTensors(g);
      groupOffloadMapping := groupOffloadMapping[g := copies];
      log := log + [Offloaded(g)];
    }

    /** The loop over the dictionary: copies each key of the group once and leaves keys and shapes. */
    method CopyOutTensors(g: nat) returns (copies: map<Key, seq<int>>)
      requires OrderOk(Abs()) && AllLive(Abs(), g)
      modifies `tensorTagToState
      ensures copies == Copies(old(tagOrder)[..|old(tagOrder)|], old(tensorTagToState), g)
      ensures tensorTagToState == MarkedAway(old(Abs()), old(tagOrder)[..|old(tagOrder)|], g)
    {
      ghost var before := Abs();
      MarkEnds(before, g);
      hide OrderOk, MarkedAway, Copies, AllLive;
      copies := map[];
      for i := 0 to |tagOrder|
        modifies `tensorTagToState
        invariant copies == Copies(before.order[..i], before.slots, g)
        invariant tensorTagToState == MarkedAway(before, before.order[..i], g)
      {
        var tag := tagOrder[i];
        MarkNext(before, i, g);
        if tag.group == g {
          var state := tensorTagToState[tag];
          if state.tensor.key !in copies {
            copies := copies[state.tensor.key := state.tensor.data];
          }
          tensorTagToState := tensorTagToState[tag := Away(state.tensor.key, state.tensor.shape)];
        }
      }
    }

    method SynchronizeOnGroupCommitForward()
      requires Valid() && CanCommitForward(config, Abs())
      modifies this
      ensures Valid()
      ensures Abs().(current := old(currentGroup) + 1, count := 0) == CommitForward(config, old(Abs()))
      ensures unchanged(`currentGroup)
    {
      hide Copies, AwaySlots, OrderOk, CloseWindow;
      if currentGroup == 0 {
        BulkOffloadGroup(0);
      }
      if layerWindowMap[offloadedGroupCount] == currentGroup {
        CloseCurrentWindow();
      }
    }

    /** Drops the buffers of the group whose window closes, and sends the next one away. */
    method CloseCurrentWindow()
      requires Valid() && (offloadedGroupCount + 1 < config.groups ==> AllLive(Abs(), offloadedGroupCount + 1))
      modifies this
      ensures Valid() && Abs() == CloseWindow(config, old(Abs())) && unchanged(`currentGroup)
    {
      hide Copies, AwaySlots, OrderOk;
      DropBuffers(offloadedGroupCount);
      if offloadedGroupCount + 1 < config.groups {
        BulkOffloadGroup(offloadedGroupCount + 1);
      }
      ghost var moved := Abs();
      offloadedGroupCount := offloadedGroupCount + 1;
      SameOrder(moved, Abs());
    }

    method DropBuffers(g: nat)
      requires Valid()
      modifies `tensorTagToBuf
      ensures Valid() && Abs() == FreeBuffers(old(Abs()), g)
    {
      ghost var before := Abs();
      tensorTagToBuf := map tag | tag in tensorTagToBuf :: if tag.group == g then None else tensorTagToBuf[tag];
      SameOrder(before, Abs());
      hide OrderOk;
    }

    method OnGroupCommitForward()
      requires Valid() && CanCommitForward(config, Abs())
      modifies this
      ensures Valid() && Abs() == CommitForward(config, old(Abs()))
    {
      SynchronizeOnGroupCommitForward();
      currentGroup := currentGroup + 1;
      tensorCountCurrentGroup := 0;
    }

    method BulkReloadGroup(g: nat)
      requires Valid() && CanReload(config, Abs(), g)
      modifies this
      ensures Valid() && Abs() == BulkReload(config, old(Abs()), g)
    {
      ghost var before := Abs();
      var copies := groupOffloadMapping[g];
      groupOffloadMapping := groupOffloadMapping - {g};
      RestoreEnds(config, before, g);
      hide OrderOk, MarkedBack, RestoredSlots, AllViewable, Viewable, Restored, Config.Valid;
      for i := 0 to |tagOrder|
        modifies `tensorTagToState
        invariant tensorTagToState == MarkedBack(before, copies, before.order[..i], g)
      {
        var tag := tagOrder[i];
        RestoreNext(before, copies, i, g);
        var state := tensorTagToState[tag];
        if tag.group == g && state.Away? {
          tensorTagToState :=
            tensorTagToState[tag := Live(Tensor(state.key, copies[state.key], state.shape))];
        }
      }
      log := log + [Reloaded(g)];
    }

    method OnGroupCommitBackward()
      requires Valid() && CanCommitBackward(config, Abs())
      modifies this
      ensures Valid() && Abs() == CommitBackward(config, old(Abs()))
    {
      currentGroup := currentGroup - 1;
      if layerWindowMap[offloadedGroupCount - 1] == currentGroup {
        BulkReloadGroup(offloadedGroupCount - 1);
        if offloadedGroupCount > 1 {
          offloadedGroupCount := offloadedGroupCount - 1;
        }
      }
      if currentGroup == 0 {
        offloadedGroupCount := 0;
      }
    }
  }

  lemma {:induction false} WithoutIsRemoval(order: seq<Tag>, tag: Tag)
    requires forall i, j :: 0 <= i < j < |order| ==> order[i] != order[j]
    ensures forall t :: t in Without(order, tag) <==> t in order && t != tag
    ensures forall i, j :: 0 <= i < j < |Without(order, tag)| ==> Without(order, tag)[i] != Without(order, tag)[j]
  {
    if order != [] {
      var rest := order[1..];
      assert order == [order[0]] + rest;
      WithoutIsRemoval(rest, tag);
      assert order[0] !in rest;
    }
  }

  lemma WithoutKeepsOrder(s: State, tag: Tag)
    requires OrderOk(s)
    ensures OrderOk(Pop(s, tag))
  {
    WithoutIsRemoval(s.order, tag);
  }

  /** What a bulk offload copies: for each storage key of the group, the contents of one of the
      tensors that have it. */

  lemma {:induction false} CopiesSound(order: seq<Tag>, slots: map<Tag, Slot>, g: nat, key: Key)
    requires key in Copies(order, slots, g)
    ensures exists tag ::
      && tag in slots && tag.group == g && slots[tag].Live?
      && slots[tag].tensor.key == key && slots[tag].tensor.data == Copies(order, slots, g)[key]
  {
    var tag := order[|order| - 1];
    if key in Copies(order[..|order| - 1], slots, g) {
      CopiesSound(order[..|order| - 1], slots, g, key);
    } else {
      assert slots[tag].tensor.key == key;
    }
  }

  lemma {:induction false} CopiesTotal(order: seq<Tag>, slots: map<Tag, Slot>, g: nat, tag: Tag)
    requires tag in order && tag in slots && tag.group == g && slots[tag].Live?
    ensures slots[tag].tensor.key in Copies(order, slots, g)
  {
    if tag != order[|order| - 1] {
      assert order == order[..|order| - 1] + [order[|order| - 1]];
      CopiesTotal(order[..|order| - 1], slots, g, tag);
    }
  }

  /** Tensors of the group that share storage have the same flat contents. */
  ghost predicate GroupKeysAgree(s: State, g: nat) {
    forall a, b | a in s.slots && b in s.slots && a.group == g && b.group == g &&
      s.slots[a].Live? && s.slots[b].Live? && s.slots[a].tensor.key == s.slots[b].tensor.key ::
      s.slots[a].tensor.data == s.slots[b].tensor.data
  }

  /** When keys agree, the copy under a tensor's key is that tensor's contents. */
  lemma GroupCopies(s: State, g: nat)
    requires OrderOk(s) && GroupKeysAgree(s, g)
    ensures forall tag | tag in s.slots && tag.group == g && s.slots[tag].Live? ::
      s.slots[tag].tensor.key in Copies(s.order, s.slots, g) &&
      Copies(s.order, s.slots, g)[s.slots[tag].tensor.key] == s.slots[tag].tensor.data
  {
    forall tag | tag in s.slots && tag.group == g && s.slots[tag].Live?
      ensures s.slots[tag].tensor.key in Copies(s.order, s.slots, g)
      ensures Copies(s.order, s.slots, g)[s.slots[tag].tensor.key] == s.slots[tag].tensor.data
    {
      CopiesTotal(s.order, s.slots, g, tag);
      CopiesSound(s.order, s.slots, g, s.slots[tag].tensor.key);
    }
  }

  ghost predicate RoundTrips(c: Config, s: State, g: nat)
    requires AllLive(s, g)
  {
    CanReload(c, BulkOffload(s, g), g) && BulkReload(c, BulkOffload(s, g), g).slots == s.slots
  }

  /** A group comes back as it left exactly when its tensors that share storage agree on their
      flat contents. */
  lemma GroupRoundTripsIffKeysAgree(c: Config, s: State, g: nat)
    requires OrderOk(s) && AllLive(s, g) && g < c.groups
    requires forall tag | tag in s.slots && tag.group == g :: s.slots[tag].tensor.WellShaped()
    ensures RoundTrips(c, s, g) <==> GroupKeysAgree(s, g)
  {
    var gone := BulkOffload(s, g);
    if GroupKeysAgree(s, g) {
      GroupCopies(s, g);
      assert BulkReload(c, gone, g).slots == s.slots;
    }
    if RoundTrips(c, s, g) {
      var back := BulkReload(c, gone, g);
      forall a, b | a in s.slots && b in s.slots && a.group == g && b.group == g &&
        s.slots[a].tensor.key == s.slots[b].tensor.key
        ensures s.slots[a].tensor.data == s.slots[b].tensor.data
      {
        assert back.slots[a] == s.slots[a] && back.slots[b] == s.slots[b];
        assert back.slots[a].tensor.data == gone.away[g][s.slots[a].tensor.key];
      }
    }
  }

  /** A matrix and its transpose share storage but not the order of their contents. */
  const MATRIX := Tensor(7, [1, 2, 3, 4], [2, 2])
  const TRANSPOSE := Tensor(7, [1, 3, 2, 4], [2, 2])

  lemma FirstCopyWins(slots: map<Tag, Slot>)
    requires slots == map[Tag(0, 0) := Live(MATRIX), Tag(0, 1) := Live(TRANSPOSE)]
    ensures Copies([Tag(0, 0), Tag(0, 1)], slots, 0) == map[7 := MATRIX.data]
  {
    assert [Tag(0, 0), Tag(0, 1)][..1] == [Tag(0, 0)];
    assert [Tag(0, 0)][..0] == [];
    assert Copies([Tag(0, 0)], slots, 0) == map[7 := MATRIX.data];
  }

  lemma SquareNumel()
    ensures Numel([2, 2]) == 4
  {
    assert Numel([2]) == 2 * Numel([]);
    assert [2, 2][1..] == [2];
  }

  /** Saved in one group, the transpose comes back with the contents of the matrix. */
  lemma TransposeComesBackWrong(c: Config)
    requires c.Sized()
    ensures var s := Push(c, Push(c, INITIAL, MATRIX), TRANSPOSE);
      AllLive(s, 0) && CanReload(c, BulkOffload(s, 0), 0) &&
      BulkReload(c, BulkOffload(s, 0), 0).slots[Tag(0, 1)] == Live(MATRIX)
  {
    var s := Push(c, Push(c, INITIAL, MATRIX), TRANSPOSE);
    assert s.order == [Tag(0, 0), Tag(0, 1)];
    FirstCopyWins(s.slots);
    SquareNumel();
  }
}
