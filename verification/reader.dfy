/** The data-reader helpers: user segmentation by profile length
    (`group_users_in_urm`), de-duplication of the target users
    (`load_target`) and weighting of an item-content matrix (`load_icm`). */
module Reader {
  import opened Results
  import opened Matrices
  import opened Argsort

  // ---------------------------------------------------------------------
  // Profile lengths of a CSR matrix

  /** `indptr` of a well-formed CSR matrix never decreases. */
  predicate NonDecreasing(indptr: seq<int>) {
    forall u :: 0 <= u < |indptr| - 1 ==> indptr[u] <= indptr[u + 1]
  }

  /** `np.ediff1d(indptr)`: the number of stored entries of every row. */
  function ProfileLengths(indptr: seq<int>): (r: seq<int>)
    ensures |r| == if |indptr| == 0 then 0 else |indptr| - 1
    ensures forall u :: 0 <= u < |r| ==> r[u] == indptr[u + 1] - indptr[u]
    ensures NonDecreasing(indptr) ==> forall u :: 0 <= u < |r| ==> r[u] >= 0
  {
    if |indptr| == 0 then []
    else seq(|indptr| - 1, u requires 0 <= u < |indptr| - 1 => indptr[u + 1] - indptr[u])
  }

  /** The sum of the entries of `xs` from position `from` on. */
  function SumFrom(xs: seq<int>, from: nat): int
    decreases |xs| - from
  {
    if from >= |xs| then 0 else xs[from] + SumFrom(xs, from + 1)
  }

  lemma {:induction false} ProfileLengthsSumFrom(indptr: seq<int>, from: nat)
    requires from < |indptr|
    ensures SumFrom(ProfileLengths(indptr), from) == indptr[|indptr| - 1] - indptr[from]
    decreases |indptr| - from
  {
    if from < |indptr| - 1 {
      ProfileLengthsSumFrom(indptr, from + 1);
    }
  }

  /** The profile lengths add up to the number of stored interactions. */
  lemma ProfileLengthsTotal(indptr: seq<int>)
    requires |indptr| >= 1
    ensures SumFrom(ProfileLengths(indptr), 0) == indptr[|indptr| - 1] - indptr[0]
  {
    ProfileLengthsSumFrom(indptr, 0);
  }

  // ---------------------------------------------------------------------
  // Blocks of the sorted users

  /** `int(n * 0.5)`: the size of each of the two blocks. */
  function BlockSize(n: nat): (bs: nat)
    ensures 2 * bs <= n < 2 * bs + 2
  {
    n / 2
  }

  /** `start_pos = group_id * block_size`. */
  function GroupStart(n: nat, g: int): (s: int)
    ensures g >= 0 ==> s >= 0
    ensures g >= 0 ==> 2 * s <= g * n
    ensures g > 0 ==> g * n < 2 * s + 2 * g
  {
    BlockBounds(n, g);
    g * BlockSize(n)
  }

  /** `g` blocks of `floor(n/2)` reach `g * n / 2` less at most `g`. */
  lemma BlockBounds(n: nat, g: int)
    ensures g >= 0 ==> 2 * (g * BlockSize(n)) <= g * n
    ensures g > 0 ==> g * n < 2 * (g * BlockSize(n)) + 2 * g
  {
    var bs := BlockSize(n);
    if n == 2 * bs {
      assert g * n == 2 * (g * bs);
    } else {
      assert n == 2 * bs + 1;
      assert g * n == 2 * (g * bs) + g;
    }
  }

  /** Consecutive groups start one block apart. */
  lemma NextStart(n: nat, g: int)
    ensures GroupStart(n, g + 1) == GroupStart(n, g) + BlockSize(n)
  {
  }

  /** `end_pos = min((group_id + 1) * block_size, n_users)`. */
  function GroupEnd(n: nat, g: int): (e: int)
    ensures e <= n
    ensures g >= 0 ==> e >= 0
  {
    var e := GroupStart(n, g) + BlockSize(n);
    if e < n then e else n
  }

  /** A slice bound as Python normalises it for a sequence of length n. */
  function SliceBound(i: int, n: nat): (r: nat)
    ensures r <= n
    ensures 0 <= i ==> r == if i < n then i else n
  {
    if i < 0 then (if i + n < 0 then 0 else i + n) else if i < n then i else n
  }

  /** Python's `s[lo:hi]`. */
  function PySlice<T>(s: seq<T>, lo: int, hi: int): (r: seq<T>)
    ensures |r| <= |s|
    ensures 0 <= lo <= hi <= |s| ==> r == s[lo..hi]
    ensures 0 <= lo <= |s| <= hi ==> r == s[lo..]
    ensures |s| <= lo || 0 <= hi <= lo ==> r == []
  {
    var a := SliceBound(lo, |s|);
    var b := SliceBound(hi, |s|);
    if a < b then s[a..b] else []
  }

  /** The entries of `s` that do not occur in `excluded`, in their order in `s`
      (`s[np.isin(s, excluded, invert=True)]`). */
  function Without(s: seq<nat>, excluded: seq<nat>): (r: seq<nat>)
    ensures forall i :: 0 <= i < |r| ==> r[i] in s && r[i] !in excluded
    ensures forall x :: x in s && x !in excluded ==> x in r
  {
    if |s| == 0 then []
    else if s[0] in excluded then Without(s[1..], excluded)
    else [s[0]] + Without(s[1..], excluded)
  }

  lemma {:induction false} WithoutAppend(s: seq<nat>, t: seq<nat>, excluded: seq<nat>)
    ensures Without(s + t, excluded) == Without(s, excluded) + Without(t, excluded)
    decreases |s|
  {
    if |s| > 0 {
      assert (s + t)[1..] == s[1..] + t;
      WithoutAppend(s[1..], t, excluded);
    } else {
      assert s + t == t;
    }
  }

  /** On one entry, `Without` keeps it exactly when it is not excluded; with
      `WithoutAppend` this fixes the result, order included, for every `s`. */
  lemma WithoutSingleton(x: nat, excluded: seq<nat>)
    ensures Without([x], excluded) == if x in excluded then [] else [x]
  {
    assert [x][1..] == [];
  }

  lemma {:induction false} WithoutNothing(s: seq<nat>, excluded: seq<nat>)
    requires forall i :: 0 <= i < |s| ==> s[i] !in excluded
    ensures Without(s, excluded) == s
    decreases |s|
  {
    if |s| > 0 {
      WithoutNothing(s[1..], excluded);
    }
  }

  lemma {:induction false} WithoutEverything(s: seq<nat>, excluded: seq<nat>)
    requires forall i :: 0 <= i < |s| ==> s[i] in excluded
    ensures Without(s, excluded) == []
    decreases |s|
  {
    if |s| > 0 {
      WithoutEverything(s[1..], excluded);
    }
  }

  /** In a sequence without repetitions, nothing before a run occurs in it. */
  lemma BeforeRunAvoidsIt(s: seq<nat>, a: nat, b: nat)
    requires Distinct(s) && a <= b <= |s|
    ensures forall i :: 0 <= i < |s[..a]| ==> s[..a][i] !in s[a..b]
  {
    forall i | 0 <= i < a ensures s[..a][i] !in s[a..b] {
      assert s[..a][i] == s[i];
    }
  }

  /** In a sequence without repetitions, nothing after a run occurs in it. */
  lemma AfterRunAvoidsIt(s: seq<nat>, a: nat, b: nat)
    requires Distinct(s) && a <= b <= |s|
    ensures forall i :: 0 <= i < |s[b..]| ==> s[b..][i] !in s[a..b]
  {
    forall i | 0 <= i < |s| - b ensures s[b..][i] !in s[a..b] {
      assert s[b..][i] == s[b + i];
    }
  }

  lemma WithoutMiddle(x: seq<nat>, y: seq<nat>, z: seq<nat>, excluded: seq<nat>)
    requires forall i :: 0 <= i < |x| ==> x[i] !in excluded
    requires forall i :: 0 <= i < |y| ==> y[i] in excluded
    requires forall i :: 0 <= i < |z| ==> z[i] !in excluded
    ensures Without(x + y + z, excluded) == x + z
  {
    WithoutNothing(x, excluded);
    WithoutEverything(y, excluded);
    WithoutNothing(z, excluded);
    WithoutAppend(x, y, excluded);
    assert Without(x + y, excluded) == x + [] == x;
    WithoutAppend(x + y, z, excluded);
  }

  /** Removing a contiguous run of a sequence without repetitions leaves what
      comes before it followed by what comes after it. */
  lemma WithoutSlice(s: seq<nat>, a: nat, b: nat)
    requires Distinct(s) && a <= b <= |s|
    ensures Without(s, s[a..b]) == s[..a] + s[b..]
  {
    BeforeRunAvoidsIt(s, a, b);
    AfterRunAvoidsIt(s, a, b);
    WithoutAvoidedRun(s, a, b);
  }

  lemma WithoutAvoidedRun(s: seq<nat>, a: nat, b: nat)
    requires a <= b <= |s|
    requires forall i :: 0 <= i < |s[..a]| ==> s[..a][i] !in s[a..b]
    requires forall i :: 0 <= i < |s[b..]| ==> s[b..][i] !in s[a..b]
    ensures Without(s, s[a..b]) == s[..a] + s[b..]
  {
    var before, run, after := s[..a], s[a..b], s[b..];
    WithoutMiddle(before, run, after, run);
    assert s == before + run + after;
  }


  /** The two lists `group_users_in_urm` computes. */
  datatype Grouping = Grouping(inGroup: seq<nat>, notInGroup: seq<nat>)

  /** Users of block `g` of the users sorted by profile length, and all others.
      `order` is the ordering `np.argsort` returned. */
  function GroupUsers(lengths: seq<int>, order: seq<nat>, g: int): (r: Grouping)
    requires IsArgsort(order, lengths)
    ensures forall u :: u in r.inGroup ==> u !in r.notInGroup
    ensures forall u :: 0 <= u < |lengths| <==> u in r.inGroup || u in r.notInGroup
  {
    ArgsortIsPermutation(order, lengths);
    var n := |lengths|;
    var inGroup := PySlice(order, GroupStart(n, g), GroupEnd(n, g));
    assert forall u :: u in inGroup ==> u in order;
    Grouping(inGroup, Without(order, inGroup))
  }

  /** The cutoff of the evaluator built for a group. */
  const Cutoff := 10

  /** What `group_users_in_urm` passes to the holdout evaluator it returns. */
  datatype EvaluatorSetup = EvaluatorSetup(testUrm: Matrix, cutoffs: seq<int>, ignoreUsers: seq<nat>)

  /** `group_users_in_urm`: profile lengths from the CSR row pointers of the
      training matrix, an argsort of them, block `g`, and an evaluator on the
      test matrix that ignores every user outside the block. The diagnostic
      line takes the minimum of the block's profile lengths, which fails on an
      empty block. */
  function GroupUsersInUrm(indptr: seq<int>, test: Matrix, order: seq<nat>, g: int): (r: Result<EvaluatorSetup>)
    requires IsArgsort(order, ProfileLengths(indptr))
    ensures r.Err? <==> |GroupUsers(ProfileLengths(indptr), order, g).inGroup| == 0
    ensures r.Ok? ==> r.value.testUrm == test && r.value.cutoffs == [Cutoff]
    ensures r.Ok? ==> forall u :: u in r.value.ignoreUsers
                         <==> 0 <= u < |ProfileLengths(indptr)| && u !in GroupUsers(ProfileLengths(indptr), order, g).inGroup
  {
    var grouping := GroupUsers(ProfileLengths(indptr), order, g);
    if |grouping.inGroup| == 0 then Err("zero-size array to reduction operation minimum which has no identity")
    else Ok(EvaluatorSetup(test, [Cutoff], grouping.notInGroup))
  }

  // ---------------------------------------------------------------------
  // Properties of the grouping

  /** For a non-negative group index the group is exactly the positions
      `g*bs .. min((g+1)*bs, n)` of the sorted users, empty when the start is at
      or beyond n. */
  lemma GroupIsBlock(lengths: seq<int>, order: seq<nat>, g: nat)
    requires IsArgsort(order, lengths)
    ensures |order| == |lengths|
    ensures var n := |lengths|;
            GroupUsers(lengths, order, g).inGroup
            == if GroupStart(n, g) < GroupEnd(n, g) then order[GroupStart(n, g)..GroupEnd(n, g)] else []
  {
    ArgsortIsPermutation(order, lengths);
  }

  /** When the group is not cut short by the end of the list it holds bs users. */
  lemma GroupSize(lengths: seq<int>, order: seq<nat>, g: nat)
    requires IsArgsort(order, lengths)
    requires (g + 1) * BlockSize(|lengths|) <= |lengths|
    ensures |GroupUsers(lengths, order, g).inGroup| == BlockSize(|lengths|)
  {
    GroupIsBlock(lengths, order, g);
    NextStart(|lengths|, g);
  }

  /** The complement keeps the sorted order: it is the sorted users before the
      group followed by the sorted users after it. */
  lemma ComplementKeepsOrder(lengths: seq<int>, order: seq<nat>, g: nat)
    requires IsArgsort(order, lengths)
    ensures |order| == |lengths|
    ensures var n := |lengths|;
            GroupUsers(lengths, order, g).notInGroup
            == if GroupStart(n, g) < GroupEnd(n, g) then order[..GroupStart(n, g)] + order[GroupEnd(n, g)..] else order
  {
    ArgsortIsPermutation(order, lengths);
    GroupIsBlock(lengths, order, g);
    var n := |lengths|;
    var a, b := GroupStart(n, g), GroupEnd(n, g);
    if a < b {
      WithoutSlice(order, a, b);
    } else {
      WithoutNothing(order, []);
    }
  }

  /** Every user of an earlier group has a profile no longer than every user of
      a later group. */
  lemma GroupsMonotone(lengths: seq<int>, order: seq<nat>, g: nat, h: nat)
    requires IsArgsort(order, lengths)
    requires g < h
    ensures forall u, v :: u in GroupUsers(lengths, order, g).inGroup && v in GroupUsers(lengths, order, h).inGroup
                           ==> lengths[u] <= lengths[v]
  {
    var gs := GroupUsers(lengths, order, g).inGroup;
    var hs := GroupUsers(lengths, order, h).inGroup;
    forall u, v | u in gs && v in hs ensures lengths[u] <= lengths[v] {
      var p :| 0 <= p < |gs| && gs[p] == u;
      var q :| 0 <= q < |hs| && hs[q] == v;
      PositionsAscend(lengths, order, g, h, p, q);
    }
  }

  lemma PositionsAscend(lengths: seq<int>, order: seq<nat>, g: nat, h: nat, p: nat, q: nat)
    requires IsArgsort(order, lengths)
    requires g < h
    requires p < |GroupUsers(lengths, order, g).inGroup| && q < |GroupUsers(lengths, order, h).inGroup|
    ensures lengths[GroupUsers(lengths, order, g).inGroup[p]] <= lengths[GroupUsers(lengths, order, h).inGroup[q]]
  {
    GroupIsBlock(lengths, order, g);
    GroupIsBlock(lengths, order, h);
    var n := |lengths|;
    StartsAscend(n, g + 1, h);
    NextStart(n, g);
    var i, j := GroupStart(n, g) + p, GroupStart(n, h) + q;
    assert i < j;
    assert lengths[order[i]] <= lengths[order[j]];
  }

  lemma {:induction false} StartsAscend(n: nat, g: nat, h: nat)
    requires g <= h
    ensures GroupStart(n, g) <= GroupStart(n, h)
    decreases h - g
  {
    if g < h {
      StartsAscend(n, g + 1, h);
      NextStart(n, g);
    }
  }

  /** With an odd number of users, groups 0 and 1 together hold all sorted users
      but the last, the one with the longest profile, which is in neither. */
  lemma OddCountDropsLongestProfile(lengths: seq<int>, order: seq<nat>)
    requires IsArgsort(order, lengths)
    requires |lengths| % 2 == 1
    ensures |order| == |lengths|
    ensures var last := order[|order| - 1];
            && GroupUsers(lengths, order, 0).inGroup + GroupUsers(lengths, order, 1).inGroup == order[..|order| - 1]
            && last !in GroupUsers(lengths, order, 0).inGroup
            && last !in GroupUsers(lengths, order, 1).inGroup
            && forall u :: 0 <= u < |lengths| ==> lengths[u] <= lengths[last]
  {
    ArgsortIsPermutation(order, lengths);
    TwoGroups(lengths, order);
    LastNotInPrefix(order);
    LastHasLongestProfile(lengths, order);
    var g0 := GroupUsers(lengths, order, 0).inGroup;
    var g1 := GroupUsers(lengths, order, 1).inGroup;
    assert 2 * BlockSize(|lengths|) == |order| - 1;
    assert g0 + g1 == order[..|order| - 1];
    assert forall u :: u in g0 ==> u in g0 + g1;
    assert forall u :: u in g1 ==> u in g0 + g1;
  }

  lemma LastNotInPrefix(s: seq<nat>)
    requires Distinct(s) && |s| > 0
    ensures s[|s| - 1] !in s[..|s| - 1]
  {
    var prefix := s[..|s| - 1];
    forall i | 0 <= i < |prefix| ensures prefix[i] != s[|s| - 1] {
      assert prefix[i] == s[i];
    }
  }

  /** The last sorted user has a profile at least as long as every user's. */
  lemma LastHasLongestProfile(lengths: seq<int>, order: seq<nat>)
    requires IsArgsort(order, lengths) && |lengths| > 0
    ensures |order| == |lengths|
    ensures forall u :: 0 <= u < |lengths| ==> lengths[u] <= lengths[order[|order| - 1]]
  {
    ArgsortIsPermutation(order, lengths);
    var n := |lengths|;
    forall u | 0 <= u < n ensures lengths[u] <= lengths[order[n - 1]] {
      assert u in order;
      var p :| 0 <= p < n && order[p] == u;
      assert p == n - 1 || lengths[order[p]] <= lengths[order[n - 1]];
    }
  }

  lemma PrefixSplits<T>(s: seq<T>, a: nat, b: nat)
    requires a <= b <= |s|
    ensures s[..b] == s[0..a] + s[a..b]
  {
  }

  /** Groups 0 and 1 are the first 2*bs sorted users. */
  lemma TwoGroups(lengths: seq<int>, order: seq<nat>)
    requires IsArgsort(order, lengths)
    ensures |order| == |lengths|
    ensures GroupUsers(lengths, order, 0).inGroup + GroupUsers(lengths, order, 1).inGroup
            == order[..2 * BlockSize(|lengths|)]
  {
    GroupIsBlock(lengths, order, 0);
    GroupIsBlock(lengths, order, 1);
    var n := |lengths|;
    var bs := BlockSize(n);
    assert GroupStart(n, 0) == 0 && GroupStart(n, 1) == bs;
    assert GroupEnd(n, 0) == bs && GroupEnd(n, 1) == 2 * bs;
    PrefixSplits(order, bs, 2 * bs);
  }

  /** With an even number of users, groups 0 and 1 together hold every user. */
  lemma EvenCountCoversAll(lengths: seq<int>, order: seq<nat>)
    requires IsArgsort(order, lengths)
    requires |lengths| % 2 == 0
    ensures GroupUsers(lengths, order, 0).inGroup + GroupUsers(lengths, order, 1).inGroup == order
  {
    TwoGroups(lengths, order);
    assert order[..|order|] == order;
  }

  /** With at least two users, groups 0 and 1 each yield an evaluator. */
  lemma FirstTwoGroupsSucceed(indptr: seq<int>, test: Matrix, order: seq<nat>, g: nat)
    requires IsArgsort(order, ProfileLengths(indptr))
    requires |ProfileLengths(indptr)| >= 2 && g <= 1
    ensures GroupUsersInUrm(indptr, test, order, g).Ok?
  {
    GroupSize(ProfileLengths(indptr), order, g);
  }

  /** With an odd number n >= 3 of users, group 2 is exactly the user the first
      two groups leave out. */
  lemma ThirdGroupHoldsLeftover(lengths: seq<int>, order: seq<nat>)
    requires IsArgsort(order, lengths)
    requires |lengths| % 2 == 1 && |lengths| >= 3
    ensures |order| == |lengths|
    ensures GroupUsers(lengths, order, 2).inGroup == [order[|order| - 1]]
  {
    GroupIsBlock(lengths, order, 2);
    var n := |lengths|;
    assert GroupStart(n, 2) == n - 1;
  }

  /** The example of four users with profile lengths 0, 5, 5, 10: group 0 holds
      the user with no interactions and one of the two users with five,
      group 1 the other one and the user with ten, whatever the tie-break. */
  lemma FourUsersExample(order: seq<nat>)
    requires IsArgsort(order, [0, 5, 5, 10])
    ensures |GroupUsers([0, 5, 5, 10], order, 0).inGroup| == 2
    ensures |GroupUsers([0, 5, 5, 10], order, 1).inGroup| == 2
    ensures GroupUsers([0, 5, 5, 10], order, 0).inGroup[0] == 0
    ensures GroupUsers([0, 5, 5, 10], order, 1).inGroup[1] == 3
  {
    var key := [0, 5, 5, 10];
    ArgsortIsPermutation(order, key);
    assert |order| == 4;
    assert BlockSize(4) == 2;
    assert GroupStart(4, 0) == 0 && GroupEnd(4, 0) == 2;
    assert GroupStart(4, 1) == 2 && GroupEnd(4, 1) == 4;
    GroupIsBlock(key, order, 0);
    GroupIsBlock(key, order, 1);
    assert GroupUsers(key, order, 0).inGroup == order[0..2];
    assert GroupUsers(key, order, 1).inGroup == order[2..4];
    // user 0 is the only one with key 0 and user 3 the only one with key 10
    assert 0 in order && 3 in order;
    assert key[order[0]] <= key[0];
    assert order[0] == 0;
    assert key[3] <= key[order[3]];
    assert order[3] == 3;
  }

  // ---------------------------------------------------------------------
  // Target users

  predicate StrictlyIncreasing(s: seq<int>) {
    forall i, j :: 0 <= i < j < |s| ==> s[i] < s[j]
  }

  function InsertSorted(x: int, s: seq<int>): (r: seq<int>)
    requires StrictlyIncreasing(s)
    ensures StrictlyIncreasing(r)
    ensures forall y :: y in r <==> y in s || y == x
  {
    if |s| == 0 then [x]
    else if x < s[0] then [x] + s
    else if x == s[0] then s
    else
      var t := InsertSorted(x, s[1..]);
      InsertSortedAfterHead(x, s, t);
      [s[0]] + t
  }

  lemma InsertSortedAfterHead(x: int, s: seq<int>, t: seq<int>)
    requires |s| > 0 && StrictlyIncreasing(s) && s[0] < x
    requires StrictlyIncreasing(t) && forall y :: y in t <==> y in s[1..] || y == x
    ensures StrictlyIncreasing([s[0]] + t)
    ensures forall y :: y in [s[0]] + t <==> y in s || y == x
  {
    forall i | 0 <= i < |t| ensures s[0] < t[i] {
      assert t[i] in t;
      if t[i] != x {
        var k :| 0 <= k < |s| - 1 && s[1..][k] == t[i];
        assert s[k + 1] == t[i];
      }
    }
    assert s == [s[0]] + s[1..];
  }

  /** `np.unique` of the target ids: strictly increasing, and holding exactly
      the ids of the input. */
  function Unique(ids: seq<int>): (r: seq<int>)
    ensures StrictlyIncreasing(r)
    ensures forall y :: y in r <==> y in ids
  {
    if |ids| == 0 then [] else InsertSorted(ids[0], Unique(ids[1..]))
  }

  lemma FirstIsMember(s: seq<int>)
    requires |s| > 0
    ensures s[0] in s
  {
  }

  /** Two strictly increasing sequences with the same elements start alike. */
  lemma HeadsAgree(a: seq<int>, b: seq<int>)
    requires StrictlyIncreasing(a) && StrictlyIncreasing(b) && |a| > 0
    requires forall y :: y in a <==> y in b
    ensures |b| > 0 && a[0] == b[0]
  {
    assert a[0] in a;
    assert forall i :: 0 <= i < |b| ==> b[0] <= b[i];
    assert forall j :: 0 <= j < |a| ==> a[0] <= a[j];
    var i :| 0 <= i < |b| && b[i] == a[0];
    assert b[0] in b;
    var j :| 0 <= j < |a| && a[j] == b[0];
  }

  /** The tail of a strictly increasing sequence holds every element but the first. */
  lemma MembersOfTail(a: seq<int>)
    requires StrictlyIncreasing(a) && |a| > 0
    ensures forall y :: y in a[1..] <==> y in a && y != a[0]
  {
    forall y ensures y in a[1..] <==> y in a && y != a[0] {
      if y in a[1..] {
        var k :| 0 <= k < |a| - 1 && a[1..][k] == y;
        assert a[0] < a[k + 1];
      }
      if y in a && y != a[0] {
        var m :| 0 <= m < |a| && a[m] == y;
        assert a[1..][m - 1] == y;
      }
    }
  }

  /** A strictly increasing sequence is determined by its set of elements. */
  lemma {:induction false} StrictlyIncreasingDetermined(a: seq<int>, b: seq<int>)
    requires StrictlyIncreasing(a) && StrictlyIncreasing(b)
    requires forall y :: y in a <==> y in b
    ensures a == b
    decreases |a|
  {
    if |a| == 0 {
      if |b| > 0 {
        FirstIsMember(b);
        assert false;
      }
    } else {
      HeadsAgree(a, b);
      MembersOfTail(a);
      MembersOfTail(b);
      StrictlyIncreasingDetermined(a[1..], b[1..]);
      assert a == [a[0]] + a[1..];
      assert b == [b[0]] + b[1..];
    }
  }

  /** The result of `np.unique` depends only on the set of ids, so it ignores
      order and repetition, and applying it twice changes nothing. */
  lemma UniqueDependsOnlyOnIds(xs: seq<int>, ys: seq<int>)
    requires forall y :: y in xs <==> y in ys
    ensures Unique(xs) == Unique(ys)
    ensures Unique(Unique(xs)) == Unique(xs)
  {
    StrictlyIncreasingDetermined(Unique(xs), Unique(ys));
    StrictlyIncreasingDetermined(Unique(Unique(xs)), Unique(xs));
  }

  // ---------------------------------------------------------------------
  // Item-content matrix

  /** One line of an ICM file. */
  datatype IcmEntry = IcmEntry(item: int, feature: int, data: int)

  /** `load_icm`: each entry's data multiplied by `weight`, coordinates kept. */
  function ApplyWeight(entries: seq<IcmEntry>, weight: int): (r: seq<IcmEntry>)
    ensures |r| == |entries|
    ensures forall i :: 0 <= i < |r| ==> r[i].item == entries[i].item && r[i].feature == entries[i].feature
    ensures forall i :: 0 <= i < |r| ==> r[i].data == entries[i].data * weight
  {
    seq(|entries|, i requires 0 <= i < |entries| => entries[i].(data := entries[i].data * weight))
  }

  /** The value of cell (item, feature) of the matrix built from the entries:
      scipy adds up the data of repeated coordinates. */
  function CellValue(entries: seq<IcmEntry>, item: int, feature: int): int {
    if |entries| == 0 then 0
    else (if entries[0].item == item && entries[0].feature == feature then entries[0].data else 0)
         + CellValue(entries[1..], item, feature)
  }

  /** Weighting the entries scales every cell of the resulting matrix. */
  lemma {:induction false} WeightScalesCells(entries: seq<IcmEntry>, weight: int, item: int, feature: int)
    ensures CellValue(ApplyWeight(entries, weight), item, feature) == weight * CellValue(entries, item, feature)
    decreases |entries|
  {
    if |entries| > 0 {
      var w := ApplyWeight(entries, weight);
      assert w[1..] == ApplyWeight(entries[1..], weight);
      WeightScalesCells(entries[1..], weight, item, feature);
      var here := if entries[0].item == item && entries[0].feature == feature then entries[0].data else 0;
      var rest := CellValue(entries[1..], item, feature);
      assert (here + rest) * weight == here * weight + rest * weight;
    }
  }

  /** The default weight 1 leaves the entries unchanged. */
  lemma UnitWeightIsIdentity(entries: seq<IcmEntry>)
    ensures ApplyWeight(entries, 1) == entries
  {
  }
}
