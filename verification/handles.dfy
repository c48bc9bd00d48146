/** The handle list and the three ways the canvas edits it: removing every
    handle of an owner, moving every handle of an owner, and merging a naked
    handle into a coinciding, adjacent handle of the same wire. */
module Handles {
  import opened Scene

  /** The handles of `hs` not owned by `owner`, in their original order. */
  function Without(hs: seq<HandleUI>, owner: Ref): (r: seq<HandleUI>)
    ensures |r| <= |hs|
    ensures forall i :: 0 <= i < |r| ==> r[i].owner != owner
    decreases |hs|
  {
    if hs == [] then []
    else Without(hs[..|hs| - 1], owner) + (if hs[|hs| - 1].owner == owner then [] else [hs[|hs| - 1]])
  }

  /** A handle survives exactly when it was in the list and `owner` does not
      own it. */
  lemma {:induction false} WithoutKeepsExactlyUnowned(hs: seq<HandleUI>, owner: Ref)
    ensures forall h :: h in Without(hs, owner) <==> h in hs && h.owner != owner
    decreases |hs|
  {
    if hs != [] {
      var init := hs[..|hs| - 1];
      WithoutKeepsExactlyUnowned(init, owner);
      assert hs == init + [hs[|hs| - 1]];
    }
  }

  /** Removing distributes over concatenation, so the kept handles stay in
      their original relative order. */
  lemma {:induction false} WithoutAppend(a: seq<HandleUI>, b: seq<HandleUI>, owner: Ref)
    ensures Without(a + b, owner) == Without(a, owner) + Without(b, owner)
    decreases |b|
  {
    if b == [] {
      assert a + b == a;
    } else {
      var b' := b[..|b| - 1];
      assert (a + b)[..|a + b| - 1] == a + b';
      WithoutAppend(a, b', owner);
    }
  }

  /** One more handle of the original list decided: dropped when owned,
      kept otherwise. */
  lemma WithoutStep(hs: seq<HandleUI>, j: nat, owner: Ref)
    requires j < |hs|
    ensures Without(hs[..j + 1], owner) == Without(hs[..j], owner) + (if hs[j].owner == owner then [] else [hs[j]])
  {
    assert hs[..j + 1][..j] == hs[..j];
  }

  /** The scan of `removeHandles` past an owned handle: the list with that
      handle deleted is the kept prefix, one handle further on. */
  lemma WithoutDropStep(orig: seq<HandleUI>, j: nat, owner: Ref)
    requires j < |orig| && orig[j].owner == owner
    ensures var a := Without(orig[..j], owner); var hs := a + orig[j..];
      hs[..|a|] + hs[|a| + 1..] == Without(orig[..j + 1], owner) + orig[j + 1..]
      && |Without(orig[..j + 1], owner)| == |a|
  {
    var a := Without(orig[..j], owner);
    WithoutStep(orig, j, owner);
    assert (a + orig[j..])[..|a|] == a;
    assert (a + orig[j..])[|a| + 1..] == orig[j + 1..];
  }

  /** The scan of `removeHandles` past a kept handle: the list is unchanged,
      read with a kept prefix one handle longer. */
  lemma WithoutKeepStep(orig: seq<HandleUI>, j: nat, owner: Ref)
    requires j < |orig| && orig[j].owner != owner
    ensures Without(orig[..j], owner) + orig[j..] == Without(orig[..j + 1], owner) + orig[j + 1..]
    ensures |Without(orig[..j + 1], owner)| == |Without(orig[..j], owner)| + 1
  {
    WithoutStep(orig, j, owner);
    assert orig[j..] == [orig[j]] + orig[j + 1..];
  }

  /** Removing from a list that has no handle of `owner` changes nothing. */
  lemma {:induction false} WithoutNoneOwned(hs: seq<HandleUI>, owner: Ref)
    requires forall i :: 0 <= i < |hs| ==> hs[i].owner != owner
    ensures Without(hs, owner) == hs
    decreases |hs|
  {
    if hs != [] {
      WithoutNoneOwned(hs[..|hs| - 1], owner);
      assert hs == hs[..|hs| - 1] + [hs[|hs| - 1]];
    }
  }

  /** Removing twice is removing once. */
  lemma WithoutIdempotent(hs: seq<HandleUI>, owner: Ref)
    ensures Without(Without(hs, owner), owner) == Without(hs, owner)
  {
    WithoutNoneOwned(Without(hs, owner), owner);
  }

  /** A handle moved to `p` when `owner` owns it, and unchanged otherwise. */
  function Moved(h: HandleUI, owner: Ref, p: Point): HandleUI
  {
    if h.owner == owner then h.(handle := h.handle.(at := p)) else h
  }

  /** The list after every handle owned by `owner` is moved to `p`. */
  function Repositioned(hs: seq<HandleUI>, owner: Ref, p: Point): (r: seq<HandleUI>)
    ensures |r| == |hs|
    ensures forall i :: 0 <= i < |hs| ==> r[i] == Moved(hs[i], owner, p)
  {
    seq(|hs|, i requires 0 <= i < |hs| => Moved(hs[i], owner, p))
  }

  /** Repositioning touches exactly the owned handles and only their position:
      every handle keeps its identity, owners and status, owned handles end at
      `p`, and the others are unchanged. */
  lemma RepositionedTouchesOnlyOwned(hs: seq<HandleUI>, owner: Ref, p: Point)
    ensures |Repositioned(hs, owner, p)| == |hs|
    ensures forall i :: 0 <= i < |hs| ==>
      var r := Repositioned(hs, owner, p)[i];
      && r.uid == hs[i].uid && r.handle.hid == hs[i].handle.hid && r.owner == hs[i].owner
      && r.handle.naked == hs[i].handle.naked && r.wireOwner == hs[i].wireOwner && r.status == hs[i].status
      && (hs[i].owner == owner ==> r.handle.at == p)
      && (hs[i].owner != owner ==> r == hs[i])
  {
  }

  /** A second reposition of the same owner overrides the first, and
      repositioning does not change which handles removal would keep. */
  lemma {:induction false} RepositionedLastWins(hs: seq<HandleUI>, owner: Ref, p: Point, q: Point)
    ensures Repositioned(Repositioned(hs, owner, p), owner, q) == Repositioned(hs, owner, q)
    ensures Without(Repositioned(hs, owner, p), owner) == Without(hs, owner)
    decreases |hs|
  {
    var r := Repositioned(hs, owner, p);
    if hs != [] {
      var init := hs[..|hs| - 1];
      assert r[..|r| - 1] == Repositioned(init, owner, p);
      RepositionedLastWins(init, owner, p, q);
    }
  }

  /** The list after `ArrayList.remove(h)`: the first record with identity
      `uid` is removed, if there is one. */
  function RemoveFirst(hs: seq<HandleUI>, uid: nat): (r: seq<HandleUI>)
    ensures (exists i :: 0 <= i < |hs| && hs[i].uid == uid) ==> |r| == |hs| - 1
    ensures (forall i :: 0 <= i < |hs| ==> hs[i].uid != uid) ==> r == hs
    ensures multiset(r) <= multiset(hs)
    decreases |hs|
  {
    if hs == [] then []
    else
      assert hs == [hs[0]] + hs[1..];
      if hs[0].uid == uid then hs[1..]
      else [hs[0]] + RemoveFirst(hs[1..], uid)
  }

  /** No two records of the list share an identity. */
  predicate DistinctHandles(hs: seq<HandleUI>)
  {
    forall i, j :: 0 <= i < j < |hs| ==> hs[i].uid != hs[j].uid
  }

  /** The records are distinct and every identity is below `next`, the next
      identity to be handed out. */
  predicate HandlesFresh(hs: seq<HandleUI>, next: nat)
  {
    DistinctHandles(hs) && forall i :: 0 <= i < |hs| ==> hs[i].uid < next
  }

  /** A record with the next identity can be appended, and the identity
      counter can only move on. */
  lemma HandlesFreshAppend(hs: seq<HandleUI>, next: nat, h: HandleUI, next': nat)
    requires HandlesFresh(hs, next) && h.uid == next && next < next'
    ensures HandlesFresh(hs + [h], next')
  {
  }

  /** Freshness survives a later identity counter. */
  lemma HandlesFreshGrow(hs: seq<HandleUI>, next: nat, next': nat)
    requires HandlesFresh(hs, next) && next <= next'
    ensures HandlesFresh(hs, next')
  {
  }

  /** Removing the records of an owner keeps the records fresh. */
  lemma {:induction false} WithoutKeepsFresh(hs: seq<HandleUI>, owner: Ref, next: nat)
    requires HandlesFresh(hs, next)
    ensures HandlesFresh(Without(hs, owner), next)
    decreases |hs|
  {
    if hs != [] {
      var init, last := hs[..|hs| - 1], hs[|hs| - 1];
      assert HandlesFresh(init, next);
      WithoutKeepsFresh(init, owner, next);
      WithoutKeepsExactlyUnowned(init, owner);
      var w := Without(init, owner);
      forall i | 0 <= i < |w| ensures w[i].uid != last.uid {
        assert w[i] in init;
      }
    }
  }

  /** `RemoveFirst` deletes exactly the element at the first index `k` with
      identity `uid`, keeping the order of the rest. */
  lemma {:induction false} RemoveFirstAt(hs: seq<HandleUI>, uid: nat, k: nat)
    requires k < |hs| && hs[k].uid == uid
    requires forall j :: 0 <= j < k ==> hs[j].uid != uid
    ensures RemoveFirst(hs, uid) == hs[..k] + hs[k + 1..]
    decreases k
  {
    if k > 0 {
      var t := hs[1..];
      RemoveFirstAt(t, uid, k - 1);
      assert hs[..k] == [hs[0]] + t[..k - 1];
      assert hs[k + 1..] == t[k..];
    }
  }

  /** Cutting index `k` out of a list of distinct records keeps exactly the
      records with another identity, and keeps them fresh. */
  lemma SpliceKeepsOthers(hs: seq<HandleUI>, k: nat, next: nat)
    requires DistinctHandles(hs)
    requires k < |hs|
    ensures forall h :: h in hs[..k] + hs[k + 1..] <==> h in hs && h.uid != hs[k].uid
    ensures HandlesFresh(hs, next) ==> HandlesFresh(hs[..k] + hs[k + 1..], next)
  {
    var uid := hs[k].uid;
    var r := hs[..k] + hs[k + 1..];
    assert forall i :: 0 <= i < k ==> r[i] == hs[i];
    assert forall i :: k <= i < |r| ==> r[i] == hs[i + 1];
    forall h | h in hs && h.uid != uid ensures h in r {
      var i :| 0 <= i < |hs| && hs[i] == h;
      if i < k { assert r[i] == h; } else { assert r[i - 1] == h; }
    }
    forall h | h in r ensures h in hs && h.uid != uid {
      var i :| 0 <= i < |r| && r[i] == h;
      if i < k { assert h == hs[i]; } else { assert h == hs[i + 1]; }
    }
  }

  /** When identities are distinct, `RemoveFirst` removes the record with that
      identity and keeps every other record, in order and fresh. */
  lemma RemoveFirstRemovesOnlyIt(hs: seq<HandleUI>, k: nat, next: nat)
    requires DistinctHandles(hs)
    requires k < |hs|
    ensures RemoveFirst(hs, hs[k].uid) == hs[..k] + hs[k + 1..]
    ensures forall h :: h in RemoveFirst(hs, hs[k].uid) <==> h in hs && h.uid != hs[k].uid
    ensures HandlesFresh(hs, next) ==> HandlesFresh(RemoveFirst(hs, hs[k].uid), next)
  {
    RemoveFirstAt(hs, hs[k].uid, k);
    SpliceKeepsOthers(hs, k, next);
  }

  /** Removing a record, present or not, keeps the list fresh. */
  lemma RemoveFirstKeepsFresh(hs: seq<HandleUI>, uid: nat, next: nat)
    requires HandlesFresh(hs, next)
    ensures HandlesFresh(RemoveFirst(hs, uid), next)
  {
    if k :| 0 <= k < |hs| && hs[k].uid == uid {
      RemoveFirstRemovesOnlyIt(hs, k, next);
    }
  }

  /** How `mergeHandle(h)` ends. */
  datatype MergeOutcome =
    | Skipped                      // h is null or not naked
    | NoPartner                    // the scan found no handle to merge into
    | Merged(partner: nat)         // h merged into the handle at this index
    | NullWireOwner(partner: nat)  // the candidate coincides, but h has no wire: the source dereferences null

  /** The handle at index `i` contains `h`'s position and belongs to the same
      wire as `h`. */
  predicate Coincides(hs: seq<HandleUI>, h: HandleUI, contains: (HandleUI, Point) -> bool, i: nat)
    requires i < |hs|
  {
    contains(hs[i], h.handle.at) && hs[i].wireOwner == h.wireOwner
  }

  /** The scan stops at index `i`: a coinciding handle of the same wire that
      is adjacent to `h` in that wire, or of a null wire. */
  predicate Decides(hs: seq<HandleUI>, h: HandleUI, contains: (HandleUI, Point) -> bool,
                    adjacent: (nat, Handle, Handle) -> bool, i: nat)
    requires i < |hs|
  {
    Coincides(hs, h, contains, i)
    && (h.wireOwner.Null? || adjacent(h.wireOwner.id, h.handle, hs[i].handle))
  }

  /** The scan of `mergeHandle` over indices `i..`, stopping at the first
      index that decides. */
  function ScanFrom(hs: seq<HandleUI>, h: HandleUI, contains: (HandleUI, Point) -> bool,
                    adjacent: (nat, Handle, Handle) -> bool, i: nat): (r: MergeOutcome)
    requires i <= |hs|
    ensures r.NoPartner? || r.Merged? || r.NullWireOwner?
    ensures r.NoPartner? <==> forall j :: i <= j < |hs| ==> !Decides(hs, h, contains, adjacent, j)
    ensures r.Merged? ==> i <= r.partner < |hs| && Decides(hs, h, contains, adjacent, r.partner) && h.wireOwner.Obj?
    ensures r.NullWireOwner? ==> i <= r.partner < |hs| && Decides(hs, h, contains, adjacent, r.partner) && h.wireOwner.Null?
    ensures r.Merged? || r.NullWireOwner? ==> forall j :: i <= j < r.partner ==> !Decides(hs, h, contains, adjacent, j)
    decreases |hs| - i
  {
    if i == |hs| then NoPartner
    else if Decides(hs, h, contains, adjacent, i) then
      (if h.wireOwner.Null? then NullWireOwner(i) else Merged(i))
    else ScanFrom(hs, h, contains, adjacent, i + 1)
  }

  /** The outcome of `mergeHandle(h)` on the list `hs`: skipped exactly for a
      null or non-naked handle. */
  function MergeDecision(hs: seq<HandleUI>, h: Option<HandleUI>, contains: (HandleUI, Point) -> bool,
                         adjacent: (nat, Handle, Handle) -> bool): (r: MergeOutcome)
    ensures r.Skipped? <==> h.None? || !h.value.handle.naked
  {
    if h.None? || !h.value.handle.naked then Skipped else ScanFrom(hs, h.value, contains, adjacent, 0)
  }

  /** The list after `mergeHandle(h)`: it only ever loses records. */
  function AfterMerge(hs: seq<HandleUI>, h: Option<HandleUI>, contains: (HandleUI, Point) -> bool,
                      adjacent: (nat, Handle, Handle) -> bool): (r: seq<HandleUI>)
    ensures |r| <= |hs| && multiset(r) <= multiset(hs)
  {
    if MergeDecision(hs, h, contains, adjacent).Merged? then RemoveFirst(hs, h.value.uid) else hs
  }

  /** `mergeHandle` does nothing to a null or non-naked handle; otherwise it
      removes at most one handle, `h` itself, and only when some handle of the
      list contains `h`'s position, belongs to the same (non-null) wire, and
      is adjacent to `h` in that wire. */
  lemma {:induction false} MergeRemovesAtMostItself(hs: seq<HandleUI>, h: Option<HandleUI>,
      contains: (HandleUI, Point) -> bool, adjacent: (nat, Handle, Handle) -> bool, next: nat)
    requires DistinctHandles(hs)
    ensures HandlesFresh(hs, next) ==> HandlesFresh(AfterMerge(hs, h, contains, adjacent), next)
    ensures h.None? || !h.value.handle.naked ==> AfterMerge(hs, h, contains, adjacent) == hs
    ensures |hs| - 1 <= |AfterMerge(hs, h, contains, adjacent)| <= |hs|
    ensures forall x :: x in AfterMerge(hs, h, contains, adjacent) <==>
      x in hs && !(MergeDecision(hs, h, contains, adjacent).Merged? && x.uid == h.value.uid)
    ensures AfterMerge(hs, h, contains, adjacent) != hs ==>
      h.Some? && h.value.handle.naked && h.value.wireOwner.Obj?
      && exists i :: 0 <= i < |hs| && contains(hs[i], h.value.handle.at) && hs[i].wireOwner == h.value.wireOwner
                                  && adjacent(h.value.wireOwner.id, h.value.handle, hs[i].handle)
  {
    var d := MergeDecision(hs, h, contains, adjacent);
    if d.Merged? {
      var uid := h.value.uid;
      if k :| 0 <= k < |hs| && hs[k].uid == uid {
        RemoveFirstRemovesOnlyIt(hs, k, next);
      } else {
        assert RemoveFirst(hs, uid) == hs;
      }
      assert Decides(hs, h.value, contains, adjacent, d.partner);
    }
  }
}
