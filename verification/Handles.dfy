/**
 Reference-counted handle stores.

 The decoder keeps saved entropy contexts, motion-vector grids and segmentation maps in three
 stores of the same shape: a table of reference counts, and one handle per reference slot. A frame
 that is being decoded holds further references until it retires.
 */
module Handles {
  import opened Values

  /** refs counts the holders of each handle, slot names the handle saved in each reference slot
      (-1 for none) and tag is the shape a handle was acquired with. */
  datatype Store = Store(refs: seq<nat>, slot: seq<int>, tag: seq<int>)

  const NONE: int := -1

  function NewStore(size: nat): Store {
    Store(seq(size, i => 0), seq(REF_FRAMES, i => NONE), seq(size, i => 0))
  }

  predicate IsHandle(s: Store, h: int) {
    NONE <= h < |s.refs|
  }

  predicate AllHandles(hs: seq<int>, size: nat) {
    forall i | 0 <= i < |hs| :: NONE <= hs[i] < size
  }

  predicate Shaped(s: Store) {
    && |s.slot| == REF_FRAMES
    && |s.tag| == |s.refs|
    && AllHandles(s.slot, |s.refs|)
  }

  /** Every count is exact: one for each slot naming the handle, one for each reference in holds. */
  ghost predicate Balanced(s: Store, holds: seq<int>) {
    && Shaped(s)
    && AllHandles(holds, |s.refs|)
    && Counted(s.refs, multiset(s.slot) + multiset(holds))
  }

  ghost predicate Counted(refs: seq<nat>, holders: multiset<int>) {
    forall h | 0 <= h < |refs| :: refs[h] == holders[h]
  }

  function Retain(s: Store, h: int): Store
    requires IsHandle(s, h)
  {
    if h == NONE then s else s.(refs := s.refs[h := s.refs[h] + 1])
  }

  function Release(s: Store, h: int): Store
    requires IsHandle(s, h)
  {
    if h == NONE || s.refs[h] == 0 then s else s.(refs := s.refs[h := s.refs[h] - 1])
  }

  function ReleaseAll(s: Store, hs: seq<int>): (r: Store)
    requires AllHandles(hs, |s.refs|)
    ensures |r.refs| == |s.refs| && r.slot == s.slot && r.tag == s.tag
    decreases |hs|
  {
    if hs == [] then s else ReleaseAll(Release(s, hs[0]), hs[1..])
  }

  function RetainAll(s: Store, hs: seq<int>): (r: Store)
    requires AllHandles(hs, |s.refs|)
    ensures |r.refs| == |s.refs| && r.slot == s.slot && r.tag == s.tag
    decreases |hs|
  {
    if hs == [] then s else RetainAll(Retain(s, hs[0]), hs[1..])
  }

  /** The lowest handle at or after from that nothing references, or |refs|. */
  function FirstFree(refs: seq<nat>, from: nat): (h: nat)
    requires from <= |refs|
    ensures from <= h <= |refs|
    ensures h < |refs| ==> refs[h] == 0
    ensures forall k | from <= k < h :: refs[k] != 0
    decreases |refs| - from
  {
    if from == |refs| || refs[from] == 0 then from else FirstFree(refs, from + 1)
  }

  predicate HasFree(s: Store) {
    FirstFree(s.refs, 0) < |s.refs|
  }

  /** Claims the lowest unreferenced handle with one reference. */
  function Acquire(s: Store, tag: int): (r: (Store, int))
    requires Shaped(s) && HasFree(s)
  {
    var h := FirstFree(s.refs, 0);
    (s.(refs := s.refs[h := 1], tag := s.tag[h := tag]), h)
  }

  /** Points slot i at handle h: the old target drops its reference, the new one gains one. */
  function SetSlot(s: Store, i: nat, h: int): (r: Store)
    requires Shaped(s) && i < REF_FRAMES && IsHandle(s, h)
    ensures Shaped(r) && |r.refs| == |s.refs| && r.slot == s.slot[i := h] && r.tag == s.tag
  {
    Retain(Release(s, s.slot[i]).(slot := s.slot[i := h]), h)
  }

  /** Points every slot from i on that to selects at the handle it selects. */
  function SetSlots(s: Store, to: seq<Option<int>>, i: nat): (r: Store)
    requires Shaped(s) && i <= REF_FRAMES == |to|
    requires forall k | 0 <= k < |to| :: to[k].Some? ==> NONE <= to[k].value < |s.refs|
    ensures Shaped(r) && |r.refs| == |s.refs| && r.tag == s.tag
    ensures forall k | 0 <= k < REF_FRAMES ::
              r.slot[k] == if k >= i && to[k].Some? then to[k].value else s.slot[k]
    decreases REF_FRAMES - i
  {
    if i == REF_FRAMES then s
    else SetSlots(if to[i].Some? then SetSlot(s, i, to[i].value) else s, to, i + 1)
  }

  /** Reference frame update: every refreshed slot takes h. */
  function Publish(s: Store, refresh: seq<bool>, h: int): (r: Store)
    requires Shaped(s) && |refresh| == REF_FRAMES && IsHandle(s, h)
    ensures Shaped(r) && |r.refs| == |s.refs| && r.tag == s.tag
    ensures r.slot == seq(REF_FRAMES, k requires 0 <= k < REF_FRAMES => if refresh[k] then h else s.slot[k])
  {
    SetSlots(s, seq(REF_FRAMES, k requires 0 <= k < REF_FRAMES => if refresh[k] then Some(h) else None), 0)
  }

  /** A key frame shown again: every slot other than shown takes the handle h. */
  function PublishOthers(s: Store, shown: nat, h: int): (r: Store)
    requires Shaped(s) && shown < REF_FRAMES && IsHandle(s, h)
    ensures Shaped(r) && |r.refs| == |s.refs| && r.tag == s.tag
    ensures r.slot == seq(REF_FRAMES, k requires 0 <= k < REF_FRAMES => if k != shown then h else s.slot[k])
  {
    SetSlots(s, seq(REF_FRAMES, k requires 0 <= k < REF_FRAMES => if k != shown then Some(h) else None), 0)
  }

  // ----- counts stay exact ------------------------------------------------------------------

  lemma NewStoreBalanced(size: nat)
    ensures Balanced(NewStore(size), [])
  {
    var s := NewStore(size);
    assert forall i | 0 <= i < |s.slot| :: s.slot[i] == NONE;
    assert forall h | 0 <= h < size :: h !in s.slot;
  }

  lemma RetainCounted(s: Store, holders: multiset<int>, h: int)
    requires Counted(s.refs, holders) && IsHandle(s, h)
    ensures Counted(Retain(s, h).refs, holders + multiset{h})
  {
  }

  lemma ReleaseCounted(s: Store, holders: multiset<int>, h: int)
    requires Counted(s.refs, holders) && IsHandle(s, h)
    requires h in holders
    ensures Counted(Release(s, h).refs, holders - multiset{h})
  {
  }

  lemma RetainBalanced(s: Store, holds: seq<int>, h: int)
    requires Balanced(s, holds) && IsHandle(s, h)
    ensures Balanced(Retain(s, h), holds + [h])
  {
    RetainCounted(s, multiset(s.slot) + multiset(holds), h);
    assert multiset(s.slot) + multiset(holds) + multiset{h} == multiset(s.slot) + multiset(holds + [h]);
  }

  lemma ReleaseBalanced(s: Store, h: int, holds: seq<int>)
    requires Balanced(s, [h] + holds)
    ensures IsHandle(s, h)
    ensures Balanced(Release(s, h), holds)
  {
    var all := [h] + holds;
    assert all[0] == h;
    assert forall i | 0 <= i < |holds| :: holds[i] == all[i + 1];
    ReleaseCounted(s, multiset(s.slot) + multiset(all), h);
    assert multiset(all) == multiset{h} + multiset(holds);
    assert multiset(s.slot) + multiset(all) - multiset{h} == multiset(s.slot) + multiset(holds);
  }

  lemma {:induction false} ReleaseAllBalanced(s: Store, hs: seq<int>, holds: seq<int>)
    requires Balanced(s, hs + holds)
    ensures AllHandles(hs, |s.refs|)
    ensures Balanced(ReleaseAll(s, hs), holds)
    decreases |hs|
  {
    assert forall i | 0 <= i < |hs| :: (hs + holds)[i] == hs[i];
    if hs == [] {
      assert hs + holds == holds;
    } else {
      assert hs + holds == [hs[0]] + (hs[1..] + holds);
      ReleaseBalanced(s, hs[0], hs[1..] + holds);
      ReleaseAllBalanced(Release(s, hs[0]), hs[1..], holds);
    }
  }

  lemma {:induction false} RetainAllBalanced(s: Store, holds: seq<int>, hs: seq<int>)
    requires Balanced(s, holds)
    requires AllHandles(hs, |s.refs|)
    ensures Balanced(RetainAll(s, hs), holds + hs)
    decreases |hs|
  {
    if hs == [] {
      assert holds + hs == holds;
    } else {
      RetainBalanced(s, holds, hs[0]);
      RetainAllBalanced(Retain(s, hs[0]), holds + [hs[0]], hs[1..]);
      assert holds + [hs[0]] + hs[1..] == holds + hs;
    }
  }

  /** A claimed handle is one that no slot names and no frame holds. */
  lemma AcquireBalanced(s: Store, holds: seq<int>, tag: int)
    requires Balanced(s, holds) && HasFree(s)
    ensures var (r, h) := Acquire(s, tag);
            && 0 <= h < |s.refs| && |r.refs| == |s.refs| && r.slot == s.slot
            && h !in s.slot && h !in holds
            && Balanced(r, holds + [h])
  {
    var (r, h) := Acquire(s, tag);
    var holders := multiset(s.slot) + multiset(holds);
    assert holders[h] == 0;
    assert h !in multiset(s.slot) && h !in multiset(holds);
    RetainCounted(s, holders, h);
    assert multiset(s.slot) + multiset(holds + [h]) == holders + multiset{h};
  }

  lemma SetSlotBalanced(s: Store, holds: seq<int>, i: nat, h: int)
    requires Balanced(s, holds) && i < REF_FRAMES && IsHandle(s, h)
    ensures Balanced(SetSlot(s, i, h), holds)
  {
    var target := s.slot[i];
    var holders := multiset(s.slot) + multiset(holds);
    ReleaseCounted(s, holders, target);
    RetainCounted(Release(s, target).(slot := s.slot[i := h]), holders - multiset{target}, h);
    assert multiset(s.slot[i := h]) == multiset(s.slot) - multiset{target} + multiset{h};
    assert holders - multiset{target} + multiset{h} == multiset(s.slot[i := h]) + multiset(holds);
  }

  lemma {:induction false} SetSlotsBalanced(s: Store, holds: seq<int>, to: seq<Option<int>>, i: nat)
    requires Balanced(s, holds) && i <= REF_FRAMES == |to|
    requires forall k | 0 <= k < |to| :: to[k].Some? ==> NONE <= to[k].value < |s.refs|
    ensures Balanced(SetSlots(s, to, i), holds)
    decreases REF_FRAMES - i
  {
    if i < REF_FRAMES {
      if to[i].Some? {
        SetSlotBalanced(s, holds, i, to[i].value);
        SetSlotsBalanced(SetSlot(s, i, to[i].value), holds, to, i + 1);
      } else {
        SetSlotsBalanced(s, holds, to, i + 1);
      }
    }
  }

  lemma PublishBalanced(s: Store, holds: seq<int>, refresh: seq<bool>, h: int)
    requires Balanced(s, holds) && |refresh| == REF_FRAMES && IsHandle(s, h)
    ensures Balanced(Publish(s, refresh, h), holds)
  {
    SetSlotsBalanced(s, holds,
      seq(REF_FRAMES, k requires 0 <= k < REF_FRAMES => if refresh[k] then Some(h) else None), 0);
  }

  lemma PublishOthersBalanced(s: Store, holds: seq<int>, shown: nat, h: int)
    requires Balanced(s, holds) && shown < REF_FRAMES && IsHandle(s, h)
    ensures Balanced(PublishOthers(s, shown, h), holds)
  {
    SetSlotsBalanced(s, holds,
      seq(REF_FRAMES, k requires 0 <= k < REF_FRAMES => if k != shown then Some(h) else None), 0);
  }

  // ----- a store never runs out -------------------------------------------------------------

  function Elements(xs: seq<int>): set<int> {
    set x | x in xs
  }

  lemma {:induction false} ElementsBound(xs: seq<int>)
    ensures |Elements(xs)| <= |xs|
  {
    if xs != [] {
      ElementsBound(xs[1..]);
      assert Elements(xs) == {xs[0]} + Elements(xs[1..]);
    } else {
      assert Elements(xs) == {};
    }
  }

  function Below(k: nat): set<int> {
    if k == 0 then {} else Below(k - 1) + {k - 1}
  }

  lemma {:induction false} BelowSize(k: nat)
    ensures |Below(k)| == k
    ensures forall i :: i in Below(k) <==> 0 <= i < k
  {
    if k > 0 {
      BelowSize(k - 1);
    }
  }

  lemma SubsetSize<T>(a: set<T>, b: set<T>)
    requires a <= b
    ensures |a| <= |b|
  {
    assert b == a + (b - a);
  }

  /** With more handles than slots and held references together, some handle is free. */
  lemma AlwaysFree(s: Store, holds: seq<int>)
    requires Balanced(s, holds)
    requires REF_FRAMES + |holds| < |s.refs|
    ensures HasFree(s)
  {
    if !HasFree(s) {
      var all := s.slot + holds;
      BelowSize(|s.refs|);
      forall h | h in Below(|s.refs|)
        ensures h in Elements(all)
      {
        assert s.refs[h] != 0;
        assert h in multiset(s.slot) + multiset(holds);
      }
      ElementsBound(all);
      SubsetSize(Below(|s.refs|), Elements(all));
    }
  }
}
