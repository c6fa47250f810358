/** The table that decides at which layer each offload group leaves the device and returns to it. */
module OffloadWindow {
  import opened Arithmetic

  /** The layer whose commit closes the window of group `i`, when `layers` layers share their
      activations among `groups` offload groups: layers are dealt out evenly, the first groups
      taking one of the remaining layers each. */
  function ClosingLayer(layers: nat, groups: nat, i: nat): int
    requires groups > 0
  {
    layers / groups * (i + 1) - 1 + Min(i + 1, layers % groups)
  }

  /** A number of layers and of offload groups, and the layer that closes each group's window. */
  datatype Config = Config(layers: nat, groups: nat, table: seq<nat>) {
    ghost predicate Sized() {
      1 <= groups <= layers && |table| == groups
    }

    /** What the handler needs of the table: windows close in group order, the last one at the last
        layer, and none before its own layer; with fewer groups than layers, a layer later. */
    ghost predicate Valid() {
      && Sized()
      && (forall i, j :: 0 <= i < j < groups ==> table[i] < table[j])
      && table[groups - 1] == layers - 1
      && (forall i :: 0 <= i < groups ==> i <= table[i] < layers)
      && (groups < layers ==> forall i :: 0 <= i < groups ==> i < table[i])
      && (groups == layers ==> forall i :: 0 <= i < groups ==> table[i] == i)
    }

    /** The number of groups, counted from group `from`, whose window closes before layer `layer`. */
    function PassedFrom(from: nat, layer: nat): (m: nat)
      requires from <= |table|
      ensures from <= m <= |table|
      ensures m < |table| ==> layer <= table[m]
      ensures from < m ==> table[m - 1] < layer
      decreases |table| - from
    {
      if from == |table| || layer <= table[from] then from else PassedFrom(from + 1, layer)
    }

    function Passed(layer: nat): (m: nat)
      ensures m <= |table|
      ensures m < |table| ==> layer <= table[m]
      ensures 0 < m ==> table[m - 1] < layer
    {
      PassedFrom(0, layer)
    }

    /** Passed is the only count that separates closed windows from open ones. */
    lemma PassedIsUnique(layer: nat, m: nat)
      requires Valid() && m <= groups
      requires m < groups ==> layer <= table[m]
      requires 0 < m ==> table[m - 1] < layer
      ensures Passed(layer) == m
    {
      var p := Passed(layer);
    }

    /** Entering the next layer closes a window exactly when it is due. */
    lemma PassedUp(layer: nat)
      requires Valid()
      ensures var m := Passed(layer);
        Passed(layer + 1) == if m < groups && table[m] == layer then m + 1 else m
    {
      var m := Passed(layer);
      if m < groups && table[m] == layer {
        PassedIsUnique(layer + 1, m + 1);
      } else {
        PassedIsUnique(layer + 1, m);
      }
    }

    lemma PassedDown(layer: nat)
      requires Valid() && layer > 0
      ensures var m := Passed(layer);
        Passed(layer - 1) == if m > 0 && table[m - 1] == layer - 1 then m - 1 else m
    {
      PassedUp(layer - 1);
    }

    /** The number of closed windows stays below the layer being computed. */
    lemma PassedBelow(layer: nat)
      requires Valid()
      ensures Passed(layer) <= layer
      ensures groups < layers && layer > 0 ==> Passed(layer) < layer
      ensures layer < layers ==> Passed(layer) < groups
      ensures layer >= layers ==> Passed(layer) == groups
    {
      var m := Passed(layer);
      if m > 0 {
        assert m - 1 <= table[m - 1];
      }
      if m < groups {
        assert table[m] < layers;
      }
    }
  }

  function Standard(layers: nat, groups: nat): Config
    requires 1 <= groups <= layers
  {
    Config(layers, groups, seq(groups, i requires 0 <= i < groups =>
      (ClosingNonNegative(layers, groups, i); ClosingLayer(layers, groups, i))))
  }

  /** The dealt-out windows have the properties the handler relies on. */
  lemma StandardIsValid(layers: nat, groups: nat)
    requires 1 <= groups <= layers
    ensures Standard(layers, groups).Valid()
    ensures groups + 1 == layers ==> forall i :: 0 <= i < groups ==> Standard(layers, groups).table[i] == i + 1
  {
    var table := Standard(layers, groups).table;
    hide ClosingLayer;
    forall i, j | 0 <= i < j < groups
      ensures table[i] < table[j]
    {
      ClosingIncreasing(layers, groups, i, j);
    }
    forall i | 0 <= i < groups
      ensures i <= table[i] < layers
      ensures groups < layers ==> i + 1 <= table[i]
      ensures groups == layers ==> table[i] == i
      ensures groups + 1 == layers ==> table[i] == i + 1
    {
      ClosingAtLeast(layers, groups, i);
    }
  }

  /** The layers are dealt out evenly, the first groups taking one of those left over each. */
  lemma WindowSpans(layers: nat, groups: nat, i: nat)
    requires 1 <= groups <= layers && i < groups
    ensures var table := Standard(layers, groups).table;
      table[i] - (if i == 0 then -1 else table[i - 1]) == layers / groups + if i < layers % groups then 1 else 0
  {
    assert layers / groups * (i + 1) == layers / groups * i + layers / groups;
  }

  lemma ClosingNonNegative(layers: nat, groups: nat, i: nat)
    requires 1 <= groups <= layers
    ensures ClosingLayer(layers, groups, i) >= 0
  {
    DivAtLeast(layers, groups, 1);
    MulMonotone(1, layers / groups, i + 1);
  }

  lemma {:induction false} ClosingIncreasing(layers: nat, groups: nat, i: nat, j: nat)
    requires 1 <= groups <= layers && i < j
    ensures ClosingLayer(layers, groups, i) < ClosingLayer(layers, groups, j)
    decreases j
  {
    if i + 1 < j {
      ClosingIncreasing(layers, groups, i, j - 1);
    }
    DivAtLeast(layers, groups, 1);
    var q := layers / groups;
    assert q * (j + 1) == q * j + q;
  }

  lemma ClosingAtLeast(layers: nat, groups: nat, i: nat)
    requires 1 <= groups <= layers && i < groups
    ensures i <= ClosingLayer(layers, groups, i) < layers
    ensures groups < layers ==> i + 1 <= ClosingLayer(layers, groups, i)
    ensures groups == layers ==> ClosingLayer(layers, groups, i) == i
    ensures groups + 1 == layers ==> ClosingLayer(layers, groups, i) == i + 1
  {
    if i < groups - 1 {
      ClosingIncreasing(layers, groups, i, groups - 1);
    }
    Shares(layers, groups);
    if layers >= 2 * groups {
      MulMonotone(2, layers / groups, i + 1);
    }
  }

  /** What the division of layers among groups comes to in the three cases that matter. */
  lemma Shares(layers: nat, groups: nat)
    requires 1 <= groups <= layers
    ensures groups == layers ==> layers / groups == 1 && layers % groups == 0
    ensures groups < layers < 2 * groups ==> layers / groups == 1 && layers % groups == layers - groups
    ensures layers >= 2 * groups ==> layers / groups >= 2
  {
    if layers >= 2 * groups {
      DivAtLeast(layers, groups, 2);
    } else if groups < layers {
      assert layers == groups + (layers - groups);
    }
  }

  /** What one turn of the loop below stores for group `i`. */
  lemma ClosingCases(layers: nat, groups: nat, i: nat)
    requires i < groups
    ensures ClosingLayer(layers, groups, i) ==
      layers / groups * (i + 1) - 1 + if i < layers % groups then i + 1 else Min(i, layers % groups)
  {
  }

  /** Fills the table group by group, carrying the extra layers handed out so far. */
  method BuildWindowMap(layers: nat, groups: nat) returns (layerWindowMap: map<nat, int>)
    requires groups > 0
    ensures layerWindowMap == map i: nat | i < groups :: ClosingLayer(layers, groups, i)
  {
    layerWindowMap := map[];
    var constant := 0;
    for i := 0 to groups
      invariant layerWindowMap == map j: nat | j < i :: ClosingLayer(layers, groups, j)
      invariant constant == Min(i, layers % groups)
    {
      hide ClosingLayer;
      ClosingCases(layers, groups, i);
      layerWindowMap := layerWindowMap[i := layers / groups * (i + 1) - 1];
      if i < layers % groups {
        layerWindowMap := layerWindowMap[i := layerWindowMap[i] + i + 1];
        constant := i + 1;
      } else {
        layerWindowMap := layerWindowMap[i := layerWindowMap[i] + constant];
      }
    }
  }
}
