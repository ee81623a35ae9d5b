/** Iterating over the keys of a branch at a version, from either end. */
module Iteration {
  import opened Basics
  import opened ByteStrings
  import opened OrderedSets
  import opened VersionState
  import opened VersionedMap
  import opened Scanning

  /** The cursors at the two ends of the underlying scan move independently, as those of the database do. */
  class MapxRawVsIter {
    const hdr: MapxRawVs
    const br: BrId
    const ver: VerId
    // the keys that the forward cursor has yet to deliver, in the order of the scan, and those of the backward cursor
    var ahead: seq<Key>
    var behind: seq<Key>

    /** What is still to come going forward. */
    ghost function Rest(): seq<(Key, Value)>
      reads this, hdr
    {
      Yields(hdr.Abs(), br, ver, ahead)
    }

    /** What is still to come going backward, last item first. */
    ghost function RestBack(): seq<(Key, Value)>
      reads this, hdr
    {
      Yields(hdr.Abs(), br, ver, behind)
    }

    constructor (hdr: MapxRawVs, br: BrId, ver: VerId, lo: Bound, hi: Bound)
      requires hdr.Formed()
      ensures this.hdr == hdr && this.br == br && this.ver == ver
      ensures ahead == behind == InOrder(set k | k in hdr.contents.layers && Within(k, lo, hi))
    {
      hide VersionState.Read;
      this.hdr, this.br, this.ver := hdr, br, ver;
      ahead, behind := [], [];
      new;
      var all := hdr.Keys();
      ahead := InOrder(set k | k in all && Within(k, lo, hi));
      behind := ahead;
    }

    method Next() returns (r: Option<(Key, Value)>)
      requires hdr.Formed()
      modifies this`ahead
      ensures r.None? ==> old(Rest()) == [] && Rest() == []
      ensures r.Some? ==> old(Rest()) == [r.value] + Rest()
    {
      if br == NULL_ID || ver == NULL_ID { return None; }
      while ahead != []
        invariant Rest() == old(Rest())
      {
        var k := ahead[0];
        ahead := ahead[1..];
        var v := hdr.GetByBranchVersion(k, br, ver);
        if v.Some? { return Some((k, v.value)); }
      }
      return None;
    }

    method NextBack() returns (r: Option<(Key, Value)>)
      requires hdr.Formed()
      modifies this`behind
      ensures r.None? ==> old(RestBack()) == [] && RestBack() == []
      ensures r.Some? ==> old(RestBack()) == RestBack() + [r.value]
    {
      if br == NULL_ID || ver == NULL_ID { return None; }
      while behind != []
        invariant RestBack() == old(RestBack())
      {
        hide Yields, VersionState.Read;
        var k := behind[|behind| - 1];
        YieldsLast(hdr.Abs(), br, ver, behind);
        behind := behind[..|behind| - 1];
        var v := hdr.GetByBranchVersion(k, br, ver);
        if v.Some? { return Some((k, v.value)); }
      }
      return None;
    }
  }

  /** The iterator over a range of keys at the newest version of a branch; an empty one without such a version. */
  method RangeByBranch(m: MapxRawVs, b: BrId, lo: Bound, hi: Bound) returns (it: MapxRawVsIter)
    requires m.Formed()
    ensures it.hdr == m
    ensures b in m.Abs().brVers && m.Abs().brVers[b] != {} ==>
      it.br == b && it.ver == Max(m.Abs().brVers[b]) &&
      it.ahead == it.behind == InOrder(set k | k in m.contents.layers && Within(k, lo, hi))
    ensures b !in m.Abs().brVers || m.Abs().brVers[b] == {} ==> it.Rest() == [] && it.RestBack() == []
  {
    hide VersionState.Read;
    var vers := m.Versions(b);
    if vers.Some? {
      var v := m.LastVersion(b);
      if v.Some? {
        it := new MapxRawVsIter(m, b, v.value, lo, hi);
        return;
      }
    }
    it := new MapxRawVsIter(m, b, NULL_ID, Unbounded, Unbounded);
  }

  /** The least key from `from` on that has a value. */
  method GetGeByBranchVersion(m: MapxRawVs, from: Key, b: BrId, v: VerId) returns (r: Option<(Key, Value)>)
    requires m.Formed()
    ensures if b == NULL_ID || v == NULL_ID then r == None else IsLeastFrom(m.Abs(), b, v, from, r)
  {
    hide Yields, IsLeastFrom, VersionState.Read;
    var it := new MapxRawVsIter(m, b, v, Included(from), Unbounded);
    if b != NULL_ID && v != NULL_ID { FirstIsLeast(m.Abs(), b, v, from, it.ahead); }
    r := it.Next();
  }

  /** The greatest key up to `to` that has a value. */
  method GetLeByBranchVersion(m: MapxRawVs, to: Key, b: BrId, v: VerId) returns (r: Option<(Key, Value)>)
    requires m.Formed()
    ensures if b == NULL_ID || v == NULL_ID then r == None else IsGreatestTo(m.Abs(), b, v, to, r)
  {
    hide Yields, IsGreatestTo, VersionState.Read;
    var it := new MapxRawVsIter(m, b, v, Unbounded, Included(to));
    if b != NULL_ID && v != NULL_ID { LastIsGreatest(m.Abs(), b, v, to, it.behind); }
    r := it.NextBack();
  }

  /** Drives an iterator forward to its end. */
  method Collect(it: MapxRawVsIter) returns (r: seq<(Key, Value)>)
    requires it.hdr.Formed()
    modifies it`ahead
    ensures r == old(it.Rest()) && it.Rest() == []
  {
    hide Yields;
    r := [];
    var more := true;
    while more
      invariant it.hdr.Formed() && r + it.Rest() == old(it.Rest())
      invariant !more ==> it.Rest() == []
      decreases |it.Rest()|, more
    {
      ghost var rest := it.Rest();
      var x := it.Next();
      if x.None? {
        more := false;
      } else {
        r := r + [x.value];
      }
    }
  }

  /** Drives an iterator backward to its start. */
  method CollectBack(it: MapxRawVsIter) returns (r: seq<(Key, Value)>)
    requires it.hdr.Formed()
    modifies it`behind
    ensures r == Backward(old(it.RestBack())) && it.RestBack() == []
  {
    hide Yields, Backward;
    r := [];
    var more := true;
    while more
      invariant it.hdr.Formed() && r + Backward(it.RestBack()) == Backward(old(it.RestBack()))
      invariant !more ==> it.RestBack() == []
      decreases |it.RestBack()|, more
    {
      var x := it.NextBack();
      if x.None? {
        more := false;
      } else {
        BackwardStep(it.RestBack(), x.value);
        r := r + [x.value];
      }
    }
  }

  function Least(i: nat, j: nat): nat {
    if i < j then i else j
  }

  function Count(schedule: seq<bool>, way: bool): nat {
    if schedule == [] then 0
    else Count(schedule[..|schedule| - 1], way) + if schedule[|schedule| - 1] == way then 1 else 0
  }

  lemma OneMoreCounted(schedule: seq<bool>, n: nat, way: bool)
    requires n < |schedule|
    ensures Count(schedule[..n + 1], way) == Count(schedule[..n], way) + if schedule[n] == way then 1 else 0
  {
    assert schedule[..n + 1][..n] == schedule[..n];
  }

  /** One more call forward, taken down behind what was delivered before. */
  method TakeFront(it: MapxRawVsIter, front: seq<(Key, Value)>, ghost r: seq<(Key, Value)>)
      returns (more: seq<(Key, Value)>)
    requires it.hdr.Formed() && front + it.Rest() == r
    modifies it`ahead
    ensures more + it.Rest() == r && |more| == Least(|front| + 1, |r|)
  {
    hide Yields;
    var x := it.Next();
    more := if x.Some? then front + [x.value] else front;
  }

  method TakeBack(it: MapxRawVsIter, back: seq<(Key, Value)>, ghost r: seq<(Key, Value)>)
      returns (more: seq<(Key, Value)>)
    requires it.hdr.Formed() && back + Backward(it.RestBack()) == Backward(r)
    modifies it`behind
    ensures more + Backward(it.RestBack()) == Backward(r) && |more| == Least(|back| + 1, |r|)
  {
    hide Yields;
    var x := it.NextBack();
    if x.Some? { BackwardStep(it.RestBack(), x.value); }
    more := if x.Some? then back + [x.value] else back;
  }

  /** Drives both cursors in any order, `true` forward and `false` backward. Going on with one cursor does
      not stop the other, so keys are delivered twice exactly if more items are delivered than the scan has. */
  method Drive(it: MapxRawVsIter, schedule: seq<bool>) returns (front: seq<(Key, Value)>, back: seq<(Key, Value)>)
    requires it.hdr.Formed() && it.ahead == it.behind
    requires forall i, j :: 0 <= i < j < |it.ahead| ==> Below(it.ahead[i], it.ahead[j])
    modifies it`ahead, it`behind
    ensures front == old(it.Rest())[..Least(Count(schedule, true), |old(it.Rest())|)]
    ensures back == Backward(old(it.Rest()))[..Least(Count(schedule, false), |old(it.Rest())|)]
    ensures NoneTwice(front + back) <==> |front| + |back| <= |old(it.Rest())|
  {
    hide Yields, NoneTwice, Backward, Below;
    ghost var r := it.Rest();
    YieldsOnce(it.hdr.Abs(), it.br, it.ver, it.ahead);
    front, back := [], [];
    for n := 0 to |schedule|
      invariant it.hdr.Formed()
      invariant front + it.Rest() == r && back + Backward(it.RestBack()) == Backward(r)
      invariant |front| == Least(Count(schedule[..n], true), |r|)
      invariant |back| == Least(Count(schedule[..n], false), |r|)
    {
      OneMoreCounted(schedule, n, true);
      OneMoreCounted(schedule, n, false);
      if schedule[n] {
        front := TakeFront(it, front, r);
      } else {
        back := TakeBack(it, back, r);
      }
    }
    assert schedule[..|schedule|] == schedule;
    assert front == r[..|front|] && back == Backward(r)[..|back|];
    CursorsOverlapExactly(r, |front|, |back|);
  }
}
