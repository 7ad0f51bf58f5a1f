/**
 * The colour allocator used for plotted signals (assets/palettes/Colormap.py).
 *
 * A Colormap hands out colours of one predefined colormap to items: colours come
 * from a pool front-first, an item keeps its colour until it releases it, a
 * released colour goes back to the front of the pool, and once the pool is empty
 * colours are reused cyclically by index. Colours are modelled as their hex strings.
 *
 * The pool's behaviour is specified on values (PoolState, Acquire, Release) and the
 * class's methods are tied to those functions; the lemmas state what the functions promise.
 */
module Colormaps {
  import opened Wrappers

  const Tab10: seq<string> := [
    "#1f77b4", "#ff7f0e", "#2ca02c", "#d62728", "#9467bd",
    "#8c564b", "#e377c2", "#7f7f7f", "#bcbd22", "#17becf"
  ]

  const Set3: seq<string> := [
    "#8dd3c7", "#ffffb3", "#bebada", "#fb8072", "#80b1d3", "#fdb462",
    "#b3de69", "#fccde5", "#d9d9d9", "#bc80bd", "#ccebc5", "#ffed6f"
  ]

  const Tab20: seq<string> := [
    "#1f77b4", "#aec7e8", "#ff7f0e", "#ffbb78", "#2ca02c", "#98df8a", "#d62728", "#ff9896", "#9467bd", "#c5b0d5",
    "#8c564b", "#c49c94", "#e377c2", "#f7b6d2", "#7f7f7f", "#c7c7c7", "#bcbd22", "#dbdb8d", "#17becf", "#9edae5"
  ]

  /** Like tab20, but all dark colours first and their lighter versions in the second half. */
  const Fof20: seq<string> := [
    "#1f77b4", "#ff7f0e", "#2ca02c", "#d62728", "#9467bd", "#8c564b", "#e377c2", "#7f7f7f", "#bcbd22", "#17becf",
    "#aec7e8", "#ffbb78", "#98df8a", "#ff9896", "#c5b0d5", "#c49c94", "#f7b6d2", "#c7c7c7", "#dbdb8d", "#9edae5"
  ]

  /** The names of the predefined colormaps, in the order the class-level table declares them. */
  const Names: seq<string> := ["tab10", "set3", "tab20", "fof20"]

  /** The colours of the predefined colormap `name`, or None when there is no such colormap. */
  function Lookup(name: string): (r: Option<seq<string>>)
    ensures r.Some? <==> name in Names
    ensures r.Some? ==> |r.value| >= 10
  {
    if name == "tab10" then Some(Tab10)
    else if name == "set3" then Some(Set3)
    else if name == "tab20" then Some(Tab20)
    else if name == "fof20" then Some(Fof20)
    else None
  }

  /** available_cm: the names accepted by the constructor and by set_colormap. */
  function AvailableCm(): (r: seq<string>)
    ensures forall name :: name in r <==> Lookup(name).Some?
    ensures |r| == 4
  {
    Names
  }

  // ---------------------------------------------------------------------------
  // The pool, on values.
  // ---------------------------------------------------------------------------

  /** The free colours (front first) and the colour held by each item. */
  datatype PoolState<K> = PoolState(available: seq<string>, inUse: map<K, string>)

  /** The state after construction or reset: every colour free, in colormap order, no item holding one. */
  function Initial<K>(all: seq<string>): PoolState<K>
  {
    PoolState(all, map[])
  }

  /** True iff a new item `id` would be given a colour by cycling, because the pool is empty. */
  predicate Cycles<K>(s: PoolState<K>, id: K)
  {
    id !in s.inUse && s.available == []
  }

  /** get_color on values: the new state and the colour handed to `id`. */
  function Acquire<K>(s: PoolState<K>, all: seq<string>, id: K): (r: (PoolState<K>, string))
    requires |all| > 0
  {
    if id in s.inUse then (s, s.inUse[id])
    else if s.available != [] then (PoolState(s.available[1..], s.inUse[id := s.available[0]]), s.available[0])
    else
      var c := all[|s.inUse| % |all|];
      (PoolState([], s.inUse[id := c]), c)
  }

  /** release_color on values: an unknown id changes nothing; a known id returns its colour to the pool's front. */
  function Release<K>(s: PoolState<K>, id: K): (r: PoolState<K>)
  {
    if id in s.inUse then PoolState([s.inUse[id]] + s.available, s.inUse - {id}) else s
  }

  /** Every free and every held colour belongs to the colormap `all`. */
  ghost predicate FromColormap<K>(s: PoolState<K>, all: seq<string>)
  {
    (forall i :: 0 <= i < |s.available| ==> s.available[i] in all) &&
    (forall id :: id in s.inUse ==> s.inUse[id] in all)
  }

  /** No colour is both free and held, none is free twice, and no two items hold the same colour. */
  ghost predicate Exclusive<K>(s: PoolState<K>)
  {
    (forall i, j :: 0 <= i < j < |s.available| ==> s.available[i] != s.available[j]) &&
    (forall id :: id in s.inUse ==> s.inUse[id] !in s.available) &&
    (forall id, id' :: id in s.inUse && id' in s.inUse && id != id' ==> s.inUse[id] != s.inUse[id'])
  }

  /** Free colours and held colours together account for the colormap exactly once each. */
  ghost predicate Balanced<K>(s: PoolState<K>, all: seq<string>)
  {
    |s.available| + |s.inUse| == |all| && Exclusive(s)
  }

  /** The invariant the class keeps: `cycled` records that some colour was handed out by cycling. */
  ghost predicate PoolInv<K>(s: PoolState<K>, all: seq<string>, cycled: bool)
  {
    |all| > 0 && FromColormap(s, all) && (!cycled ==> Balanced(s, all))
  }

  /** No colour is listed twice in `s`. */
  ghost predicate Distinct(s: seq<string>)
  {
    forall i, j :: 0 <= i < j < |s| ==> s[i] != s[j]
  }

  lemma InitialIsBalanced<K>(all: seq<string>)
    requires |all| > 0 && Distinct(all)
    ensures PoolInv(Initial<K>(all), all, false)
    ensures Initial<K>(all).available == all && Initial<K>(all).inUse == map[]
  {
  }

  lemma PredefinedAreDistinct(name: string)
    requires Lookup(name).Some?
    ensures Distinct(Lookup(name).value)
  {
    if name == "tab10" {
      Tab10Distinct();
    } else if name == "set3" {
      Set3Distinct();
    } else if name == "tab20" {
      Tab20Distinct();
    } else {
      Fof20Distinct();
    }
  }

  lemma Tab10Distinct() ensures Distinct(Tab10) {}
  lemma Set3Distinct() ensures Distinct(Set3) {}

  /** Colour `i` of tab20 differs from every later one. */
  lemma Tab20Row(i: nat)
    requires i < |Tab20|
    ensures forall j :: i < j < |Tab20| ==> Tab20[i] != Tab20[j]
  {
  }

  /** Colour `i` of fof20 differs from every later one. */
  lemma Fof20Row(i: nat)
    requires i < |Fof20|
    ensures forall j :: i < j < |Fof20| ==> Fof20[i] != Fof20[j]
  {
  }

  lemma Tab20Distinct() ensures Distinct(Tab20)
  {
    forall i | 0 <= i < |Tab20| ensures forall j :: i < j < |Tab20| ==> Tab20[i] != Tab20[j] {
      Tab20Row(i);
    }
  }

  lemma Fof20Distinct() ensures Distinct(Fof20)
  {
    forall i | 0 <= i < |Fof20| ensures forall j :: i < j < |Fof20| ==> Fof20[i] != Fof20[j] {
      Fof20Row(i);
    }
  }



  /** An item that already holds a colour gets that same colour back, and nothing changes. */
  lemma AcquireKnown<K>(s: PoolState<K>, all: seq<string>, id: K)
    requires |all| > 0 && id in s.inUse
    ensures Acquire(s, all, id) == (s, s.inUse[id])
  {
  }

  /** What get_color promises about a new item: front of the pool, or the cyclic pick once the pool is empty. */
  lemma AcquireNew<K>(s: PoolState<K>, all: seq<string>, id: K)
    requires |all| > 0 && id !in s.inUse
    ensures var (s', c) := Acquire(s, all, id);
      && s'.inUse == s.inUse[id := c]
      && (s.available != [] ==> c == s.available[0] && s'.available == s.available[1..])
      && (s.available == [] ==> c == all[|s.inUse| % |all|] && s'.available == [])
  {
  }

  /** get_color keeps the invariant; the colour it returns belongs to the colormap and is now the item's. */
  lemma {:induction false} AcquirePreserves<K>(s: PoolState<K>, all: seq<string>, cycled: bool, id: K)
    requires PoolInv(s, all, cycled)
    ensures var (s', c) := Acquire(s, all, id);
      && PoolInv(s', all, cycled || Cycles(s, id))
      && c in all && id in s'.inUse && s'.inUse[id] == c
  {
    var (s', c) := Acquire(s, all, id);
    if id !in s.inUse && s.available != [] {
      assert s.available[0] in all;
      forall i | 0 <= i < |s'.available| ensures s'.available[i] in all {
        assert s'.available[i] == s.available[i + 1];
      }
      if !cycled {
        assert |s'.inUse| == |s.inUse| + 1;
        forall id' | id' in s'.inUse ensures s'.inUse[id'] !in s'.available {
          if id' == id {
            assert forall j :: 0 <= j < |s'.available| ==> s'.available[j] == s.available[j + 1];
          } else {
            assert s'.inUse[id'] == s.inUse[id'];
            assert forall j :: 0 <= j < |s'.available| ==> s'.available[j] == s.available[j + 1];
          }
        }
      }
    }
  }

  /** release_color keeps the invariant. */
  lemma {:induction false} ReleasePreserves<K>(s: PoolState<K>, all: seq<string>, cycled: bool, id: K)
    requires PoolInv(s, all, cycled)
    ensures PoolInv(Release(s, id), all, cycled)
    ensures id !in Release(s, id).inUse
  {
    if id in s.inUse {
      var s' := Release(s, id);
      var c := s.inUse[id];
      forall i | 0 <= i < |s'.available| ensures s'.available[i] in all {
        if i > 0 { assert s'.available[i] == s.available[i - 1]; }
      }
      if !cycled {
        assert |s'.inUse| == |s.inUse| - 1;
        forall i, j | 0 <= i < j < |s'.available| ensures s'.available[i] != s'.available[j] {
          assert s'.available[j] == s.available[j - 1];
          if i > 0 { assert s'.available[i] == s.available[i - 1]; }
        }
        forall id' | id' in s'.inUse ensures s'.inUse[id'] !in s'.available {
          assert s'.inUse[id'] == s.inUse[id'] && id' != id;
        }
      }
    }
  }

  /** A released colour is the very next one a new item receives. */
  lemma ReleaseThenAcquire<K>(s: PoolState<K>, all: seq<string>, id: K, other: K)
    requires |all| > 0 && id in s.inUse && other !in s.inUse
    ensures Acquire(Release(s, id), all, other).1 == s.inUse[id]
  {
  }

  /** Releasing the item just given a colour from the pool restores the previous state exactly. */
  lemma {:induction false} AcquireThenRelease<K>(s: PoolState<K>, all: seq<string>, id: K)
    requires |all| > 0 && id !in s.inUse && s.available != []
    ensures Release(Acquire(s, all, id).0, id) == s
  {
    var s' := Acquire(s, all, id).0;
    assert s'.inUse - {id} == s.inUse;
    assert [s.available[0]] + s.available[1..] == s.available;
  }

  /** Without cycling the first item to find the pool empty gets the colormap's first colour. */
  lemma FirstCycledColour<K>(s: PoolState<K>, all: seq<string>, id: K)
    requires PoolInv(s, all, false) && Cycles(s, id)
    ensures Acquire(s, all, id).1 == all[0]
  {
  }

  // ---------------------------------------------------------------------------
  // The class.
  // ---------------------------------------------------------------------------

  class Colormap<K(==)> {
    var colormapName: string
    var allColors: seq<string>
    var availableColors: seq<string>
    var colorsInUseByItem: map<K, string>
    /** Whether some colour was handed out by cycling since the last reset (not part of the source). */
    ghost var cycled: bool

    function State(): PoolState<K>
      reads this
    {
      PoolState(availableColors, colorsInUseByItem)
    }

    ghost predicate Valid()
      reads this
    {
      Lookup(colormapName) == Some(allColors) && PoolInv(State(), allColors, cycled)
    }

    /** __init__ for a name known to be predefined; Create handles the error case. */
    constructor (name: string)
      requires name in Names
      ensures Valid() && !cycled
      ensures colormapName == name && Some(allColors) == Lookup(name)
      ensures State() == Initial(allColors)
    {
      colormapName := name;
      allColors := Lookup(name).value;
      availableColors := Lookup(name).value;
      colorsInUseByItem := map[];
      cycled := false;
      new;
      PredefinedAreDistinct(name);
      InitialIsBalanced<K>(allColors);
    }

    /** __init__: an unknown colormap name is rejected (the source raises ValueError) and no object is made. */
    static method Create(name: string) returns (r: Option<Colormap<K>>)
      ensures r.Some? <==> Lookup(name).Some?
      ensures r.Some? ==> fresh(r.value) && r.value.Valid() && !r.value.cycled
      ensures r.Some? ==> r.value.colormapName == name && Some(r.value.allColors) == Lookup(name)
      ensures r.Some? ==> r.value.State() == Initial(r.value.allColors)
    {
      if name in Names {
        var cm := new Colormap<K>(name);
        r := Some(cm);
      } else {
        r := None;
      }
    }

    /** get_color: the colour of `id`, assigning one first when `id` has none. */
    method GetColor(id: K) returns (color: string)
      requires Valid()
      modifies this
      ensures Valid()
      ensures (State(), color) == Acquire(old(State()), allColors, id)
      ensures cycled == (old(cycled) || Cycles(old(State()), id))
      ensures colormapName == old(colormapName) && allColors == old(allColors)
      ensures color in allColors && colorsInUseByItem[id] == color
    {
      AcquirePreserves(State(), allColors, cycled, id);
      cycled := cycled || Cycles(State(), id);
      if id in colorsInUseByItem {
        return colorsInUseByItem[id];
      }
      if availableColors != [] {
        color := availableColors[0];
        availableColors := availableColors[1..];
      } else {
        var idx := |colorsInUseByItem| % |allColors|;
        color := allColors[idx];
      }
      colorsInUseByItem := colorsInUseByItem[id := color];
    }

    /** release_color: an unknown id is a no-op; otherwise its colour goes back to the front of the pool. */
    method ReleaseColor(id: K)
      requires Valid()
      modifies this
      ensures Valid()
      ensures State() == Release(old(State()), id)
      ensures colormapName == old(colormapName) && allColors == old(allColors) && cycled == old(cycled)
    {
      ReleasePreserves(State(), allColors, cycled, id);
      if id in colorsInUseByItem {
        var color := colorsInUseByItem[id];
        colorsInUseByItem := colorsInUseByItem - {id};
        availableColors := [color] + availableColors;
      }
    }

    /** reset: every colour free again, in colormap order, and no item holding one. */
    method Reset()
      requires Lookup(colormapName) == Some(allColors)
      modifies this
      ensures Valid() && !cycled
      ensures State() == Initial(allColors)
      ensures colormapName == old(colormapName) && allColors == old(allColors)
    {
      availableColors := allColors;
      colorsInUseByItem := map[];
      cycled := false;
      PredefinedAreDistinct(colormapName);
      InitialIsBalanced<K>(allColors);
    }

    /** set_colormap: an unknown name is rejected and nothing changes; otherwise switch colormaps and reset. */
    method SetColormap(name: string) returns (ok: bool)
      requires Valid()
      modifies this
      ensures ok <==> Lookup(name).Some?
      ensures !ok ==> (colormapName == old(colormapName) && allColors == old(allColors) &&
                       State() == old(State()) && cycled == old(cycled))
      ensures ok ==> (colormapName == name && Some(allColors) == Lookup(name) &&
                      State() == Initial(allColors) && !cycled)
      ensures Valid()
    {
      if name !in Names {
        return false;
      }
      colormapName := name;
      allColors := Lookup(name).value;
      Reset();
      ok := true;
    }
  }
}
