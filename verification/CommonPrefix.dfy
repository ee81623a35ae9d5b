/** The loop over all branches' version iterators at once, and what it collects. */
module CommonPrefix {
  import opened OrderedSets
  import opened VersionState
  import opened VersionInvariants

  /** `x` comes right after `p` in every list. */
  ghost predicate ContinuesAll(p: seq<VerId>, x: VerId, lists: seq<seq<VerId>>) {
    forall i :: 0 <= i < |lists| ==> |p| < |lists[i]| && lists[i][|p|] == x
  }

  ghost predicate PrefixOfAll(p: seq<VerId>, lists: seq<seq<VerId>>) {
    forall i :: 0 <= i < |lists| ==> p <= lists[i]
  }

  ghost predicate IsLongestCommonPrefix(p: seq<VerId>, lists: seq<seq<VerId>>) {
    PrefixOfAll(p, lists) && forall x :: !ContinuesAll(p, x, lists)
  }

  /** Draws one version from each iterator in turn, until one is exhausted or disagrees with the first. */
  method LongestCommonPrefix(lists: seq<seq<VerId>>) returns (prefix: seq<VerId>)
    requires lists != [] && forall i, v :: 0 <= i < |lists| && v in lists[i] ==> v < VER_ID_MAX
    ensures IsLongestCommonPrefix(prefix, lists)
  {
    var drawn: seq<nat> := seq(|lists|, i => 0);
    var guard := VER_ID_MAX;
    prefix := [];
    label x: while true
      invariant |drawn| == |lists| && forall i :: 0 <= i < |lists| ==> drawn[i] == |prefix|
      invariant PrefixOfAll(prefix, lists)
      decreases |lists[0]| - |prefix|
    {
      var idx := 0;
      while idx < |lists|
        invariant 0 <= idx <= |lists| == |drawn|
        invariant forall i :: 0 <= i < idx ==> drawn[i] == |prefix| + 1
        invariant forall i :: 0 <= i < idx ==> |prefix| < |lists[i]| && lists[i][|prefix|] == guard
        invariant forall i :: idx <= i < |lists| ==> drawn[i] == |prefix|
      {
        if drawn[idx] < |lists[idx]| {
          var ver := lists[idx][drawn[idx]];
          drawn := drawn[idx := drawn[idx] + 1];
          if idx == 0 { guard := ver; }
          if guard != ver {
            assert lists[0][|prefix|] == guard;
            break x;
          }
        } else {
          break x;
        }
        idx := idx + 1;
      }
      assert lists[0][|prefix|] in lists[0];
      assert guard != VER_ID_MAX;
      prefix := prefix + [guard];
    }
  }

  /** The version lists of the non-empty branches among `q`, in ascending order of the branches. */
  ghost predicate ListsAmong(h: Histories, q: seq<BrId>, bs: seq<BrId>, lists: seq<seq<VerId>>) {
    && |bs| == |lists|
    && (forall i :: 0 <= i < |bs| ==> bs[i] in h && h[bs[i]] != {} && lists[i] == Ids(h[bs[i]]))
    && (forall b :: b in bs ==> b in q)
    && (forall b :: b in q && b in h && h[b] != {} ==> b in bs)
    && (forall i, j :: 0 <= i < j < |bs| ==> bs[i] < bs[j])
  }

  lemma ListsAmongNone(h: Histories)
    ensures ListsAmong(h, [], [], [])
  {
  }

  lemma ListsAmongAll(s: State, q: seq<BrId>, bs: seq<BrId>, lists: seq<seq<VerId>>)
    requires ListsAmong(s.brVers, q, bs, lists) && forall b :: b in s.brVers ==> b in q
    ensures ListsOf(s, bs, lists) && forall i, j :: 0 <= i < j < |bs| ==> bs[i] < bs[j]
  {
  }

  lemma OneMoreListed(q: seq<nat>, i: nat)
    requires i < |q| && forall j, k :: 0 <= j < k < |q| ==> q[j] < q[k]
    ensures q[i] in q && q[..i + 1] == q[..i] + [q[i]]
    ensures forall c :: c in q[..i] ==> c < q[i]
  {
  }

  lemma ListsAmongStep(h: Histories, q: seq<BrId>, b: BrId, bs: seq<BrId>, lists: seq<seq<VerId>>)
    requires ListsAmong(h, q, bs, lists) && b in h && forall c :: c in q ==> c < b
    ensures h[b] != {} ==> ListsAmong(h, q + [b], bs + [b], lists + [Ids(h[b])])
    ensures h[b] == {} ==> ListsAmong(h, q + [b], bs, lists)
  {
  }

  /** The version lists of all non-empty branches. */
  ghost predicate ListsOf(s: State, bs: seq<BrId>, lists: seq<seq<VerId>>) {
    && |bs| == |lists|
    && (forall i :: 0 <= i < |bs| ==> bs[i] in s.brVers && s.brVers[bs[i]] != {} && lists[i] == Ids(s.brVers[bs[i]]))
    && (forall b :: b in s.brVers && s.brVers[b] != {} ==> b in bs)
  }

  lemma BelowInList(s: State, bs: seq<BrId>, lists: seq<seq<VerId>>, i: nat, j: nat, u: VerId)
    requires ListsOf(s, bs, lists) && i < |bs| && j < |lists[i]|
    ensures u in UpTo(s.brVers[bs[i]], lists[i][j]) <==> u in lists[i][..j + 1]
  {
    var q := lists[i];
    if u in q && u <= q[j] {
      var m :| 0 <= m < |q| && q[m] == u;
      assert m <= j;
      assert q[..j + 1][m] == u;
    }
    if u in q[..j + 1] {
      assert u in q;
    }
  }

  /** A version of the common prefix is common history. */
  lemma PrefixIsCommon(s: State, bs: seq<BrId>, lists: seq<seq<VerId>>, p: seq<VerId>, j: nat)
    requires ListsOf(s, bs, lists) && bs != [] && PrefixOfAll(p, lists) && j < |p|
    ensures InCommon(s, p[j])
  {
    var v := p[j];
    forall i | 0 <= i < |bs|
      ensures v in s.brVers[bs[i]] && forall u :: u in UpTo(s.brVers[bs[i]], v) <==> u in p[..j + 1]
    {
      assert lists[i][j] == v && lists[i][..j + 1] == p[..j + 1];
      assert v in lists[i];
      forall u
        ensures u in UpTo(s.brVers[bs[i]], v) <==> u in p[..j + 1]
      {
        BelowInList(s, bs, lists, i, j, u);
      }
    }
    assert bs[0] in s.brVers && v in s.brVers[bs[0]];
    forall b, c | b in s.brVers && c in s.brVers && s.brVers[b] != {} && s.brVers[c] != {}
      ensures v in s.brVers[b] && UpTo(s.brVers[b], v) == UpTo(s.brVers[c], v)
    {
      assert b in bs && c in bs;
    }
  }

  /** Common history sits at the same place of every list, with the same versions before it. */
  lemma CommonPosition(s: State, bs: seq<BrId>, lists: seq<seq<VerId>>, v: VerId, i: nat, j: nat, m: nat)
    requires ListsOf(s, bs, lists) && InCommon(s, v)
    requires i < |bs| && j < |bs| && m < |lists[i]| && lists[i][m] == v
    ensures lists[i][..m + 1] <= lists[j]
  {
    assert v in s.brVers[bs[j]] && UpTo(s.brVers[bs[i]], v) == UpTo(s.brVers[bs[j]], v);
    assert v in lists[j];
    var n :| 0 <= n < |lists[j]| && lists[j][n] == v;
    var q, p := lists[i][..m + 1], lists[j][..n + 1];
    forall u
      ensures u in q <==> u in p
    {
      BelowInList(s, bs, lists, i, m, u);
      BelowInList(s, bs, lists, j, n, u);
    }
    IdsUnique(q, p);
  }

  /** The longest common prefix of the branches' lists is their common history, in order. */
  lemma CollectsCommonHistory(s: State, bs: seq<BrId>, lists: seq<seq<VerId>>, p: seq<VerId>)
    requires ListsOf(s, bs, lists) && bs != [] && IsLongestCommonPrefix(p, lists)
    ensures p == Ids(Common(s))
  {
    forall v
      ensures v in p <==> v in Common(s)
    {
      if v in p {
        var j :| 0 <= j < |p| && p[j] == v;
        PrefixIsCommon(s, bs, lists, p, j);
      }
      if v in Common(s) {
        CommonIsInPrefix(s, bs, lists, p, v);
      }
    }
    assert p == lists[0][..|p|];
    IdsUnique(p, Ids(Common(s)));
  }

  lemma CommonIsInPrefix(s: State, bs: seq<BrId>, lists: seq<seq<VerId>>, p: seq<VerId>, v: VerId)
    requires ListsOf(s, bs, lists) && bs != [] && IsLongestCommonPrefix(p, lists) && InCommon(s, v)
    ensures v in p
  {
    assert v in s.brVers[bs[0]];
    assert v in lists[0];
    var m :| 0 <= m < |lists[0]| && lists[0][m] == v;
    if m < |p| {
      assert p[m] == v;
    } else {
      forall j | 0 <= j < |lists|
        ensures |p| < |lists[j]| && lists[j][|p|] == lists[0][|p|]
      {
        CommonPosition(s, bs, lists, v, 0, j, m);
        assert lists[0][..m + 1][|p|] == lists[0][|p|];
      }
      assert ContinuesAll(p, lists[0][|p|], lists);
    }
  }

  lemma ListedVersionsBounded(s: State, bs: seq<BrId>, lists: seq<seq<VerId>>)
    requires Inv(s) && ListsOf(s, bs, lists)
    ensures forall i, v :: 0 <= i < |lists| && v in lists[i] ==> v < VER_ID_MAX
  {
    VersionsAllocated(s);
    forall i, v | 0 <= i < |lists| && v in lists[i]
      ensures v < VER_ID_MAX
    {
      assert v in s.brVers[bs[i]];
    }
  }

  lemma ListedBranches(s: State, bs: seq<BrId>, lists: seq<seq<VerId>>)
    requires ListsOf(s, bs, lists)
    ensures (set b | b in bs) == set b | b in s.brVers && s.brVers[b] != {}
  {
  }
}
