/** The order of mayoral succession (Town.getMayoralSuccession): the
    LinkedHashSet computation as functions over sequences, an independent
    grouped characterisation of it, and the properties the ordering promises. */
module Succession {
  import opened TownyObjects

  /** The residents of the roster holding the rank, in roster order
      (getResidentsWithRank). */
  function WithRank(roster: seq<Resident>, rank: string): (r: seq<Resident>)
    ensures forall x :: x in r <==> x in roster && x.HasTownRank(rank)
  {
    if roster == [] then []
    else
      var last := roster[|roster| - 1];
      assert roster == roster[..|roster| - 1] + [last];
      WithRank(roster[..|roster| - 1], rank) + (if last.HasTownRank(rank) then [last] else [])
  }

  /** LinkedHashSet.add: append x unless it is already present. */
  function LinkedAdd(acc: seq<Resident>, x: Resident): seq<Resident>
  {
    if x in acc then acc else acc + [x]
  }

  /** LinkedHashSet.add of every element of xs, in order. */
  function AddAll(acc: seq<Resident>, xs: seq<Resident>): seq<Resident>
  {
    if xs == [] then acc
    else LinkedAdd(AddAll(acc, xs[..|xs| - 1]), xs[|xs| - 1])
  }

  /** The set after the loop over the configured ranks (first loop of
      getMayoralSuccession). */
  function RankFold(roster: seq<Resident>, order: seq<string>): seq<Resident>
  {
    if order == [] then []
    else AddAll(RankFold(roster, order[..|order| - 1]), WithRank(roster, order[|order| - 1]))
  }

  /** getMayoralSuccession as written: ranks first, then the whole roster,
      then the current mayor removed. */
  function SuccessionOrder(roster: seq<Resident>, order: seq<string>, mayor: Option<Resident>): seq<Resident>
  {
    var all := AddAll(RankFold(roster, order), roster);
    if mayor.Some? then Discard(all, mayor.value) else all
  }

  // ---------------------------------------------------------------------
  // The grouped characterisation.

  /** Index of the first configured rank the resident holds, or |order| when
      it holds none: the group the resident falls in. */
  function Key(x: Resident, order: seq<string>): (k: nat)
    ensures k <= |order|
    ensures k < |order| ==> x.HasTownRank(order[k])
    ensures forall i :: 0 <= i < k ==> !x.HasTownRank(order[i])
  {
    if order == [] then 0
    else if x.HasTownRank(order[0]) then 0
    else 1 + Key(x, order[1..])
  }

  /** The residents of group k, in roster order. */
  function KeyIs(roster: seq<Resident>, order: seq<string>, k: nat): (r: seq<Resident>)
    ensures forall x :: x in r <==> x in roster && Key(x, order) == k
  {
    if roster == [] then []
    else
      var last := roster[|roster| - 1];
      assert roster == roster[..|roster| - 1] + [last];
      KeyIs(roster[..|roster| - 1], order, k) + (if Key(last, order) == k then [last] else [])
  }

  /** Groups 0 .. k-1 one after the other. */
  function Grouped(roster: seq<Resident>, order: seq<string>, k: nat): (r: seq<Resident>)
    ensures forall x :: x in r <==> x in roster && Key(x, order) < k
  {
    if k == 0 then [] else Grouped(roster, order, k - 1) + KeyIs(roster, order, k - 1)
  }

  /** The elements of xs not in acc, in order. */
  function FilterOut(xs: seq<Resident>, acc: seq<Resident>): seq<Resident>
  {
    if xs == [] then []
    else FilterOut(xs[..|xs| - 1], acc) + (if xs[|xs| - 1] in acc then [] else [xs[|xs| - 1]])
  }

  /** x comes before y in succession: a lower group, or the same group and
      earlier in the roster. */
  ghost predicate Precedes(roster: seq<Resident>, order: seq<string>, x: Resident, y: Resident)
  {
    Key(x, order) < Key(y, order) || (Key(x, order) == Key(y, order) && Before(roster, x, y))
  }

  ghost predicate Ordered(roster: seq<Resident>, order: seq<string>, s: seq<Resident>)
  {
    forall i, j :: 0 <= i < j < |s| ==> Precedes(roster, order, s[i], s[j])
  }

  // ---------------------------------------------------------------------
  // Lemmas.

  lemma NoDupPrefix(s: seq<Resident>, n: nat)
    requires NoDup(s) && n <= |s|
    ensures NoDup(s[..n])
  {
    forall i, j | 0 <= i < j < n ensures s[..n][i] != s[..n][j] {
      assert s[..n][i] == s[i] && s[..n][j] == s[j];
    }
  }

  lemma NoDupConcat(a: seq<Resident>, b: seq<Resident>)
    requires NoDup(a) && NoDup(b)
    requires forall x :: x in a ==> x !in b
    ensures NoDup(a + b)
  {
    forall i, j | 0 <= i < j < |a + b| ensures (a + b)[i] != (a + b)[j] {
      if j < |a| {
        assert (a + b)[i] == a[i] && (a + b)[j] == a[j];
      } else if i >= |a| {
        assert (a + b)[i] == b[i - |a|] && (a + b)[j] == b[j - |a|];
      } else {
        assert (a + b)[i] in a && (a + b)[j] in b;
      }
    }
  }

  lemma {:induction false} KeyIsNoDup(roster: seq<Resident>, order: seq<string>, k: nat)
    requires NoDup(roster)
    ensures NoDup(KeyIs(roster, order, k))
  {
    if roster != [] {
      var init := roster[..|roster| - 1];
      var last := roster[|roster| - 1];
      NoDupPrefix(roster, |roster| - 1);
      KeyIsNoDup(init, order, k);
      if Key(last, order) == k {
        assert last !in init by {
          forall i | 0 <= i < |init| ensures init[i] != last {
            assert init[i] == roster[i];
          }
        }
        NoDupAppend(KeyIs(init, order, k), last);
      }
    }
  }

  lemma {:induction false} GroupedNoDup(roster: seq<Resident>, order: seq<string>, k: nat)
    requires NoDup(roster)
    ensures NoDup(Grouped(roster, order, k))
  {
    if k > 0 {
      var g := Grouped(roster, order, k - 1);
      var h := KeyIs(roster, order, k - 1);
      GroupedNoDup(roster, order, k - 1);
      KeyIsNoDup(roster, order, k - 1);
      forall x | x in g ensures x !in h {
        assert Key(x, order) < k - 1;
      }
      NoDupConcat(g, h);
    }
  }

  /** Adding a duplicate-free list appends exactly its new elements. */
  lemma {:induction false} AddAllAppendsNew(acc: seq<Resident>, xs: seq<Resident>)
    requires NoDup(xs)
    ensures AddAll(acc, xs) == acc + FilterOut(xs, acc)
  {
    if xs != [] {
      var init := xs[..|xs| - 1];
      var last := xs[|xs| - 1];
      NoDupPrefix(xs, |xs| - 1);
      AddAllAppendsNew(acc, init);
      assert last !in init by {
        forall i | 0 <= i < |init| ensures init[i] != last {
          assert init[i] == xs[i];
        }
      }
      FilterOutSubset(init, acc);
    }
  }

  lemma {:induction false} FilterOutSubset(xs: seq<Resident>, acc: seq<Resident>)
    ensures forall x :: x in FilterOut(xs, acc) ==> x in xs && x !in acc
  {
    if xs != [] {
      var init := xs[..|xs| - 1];
      FilterOutSubset(init, acc);
      assert xs == init + [xs[|xs| - 1]];
    }
  }

  /** Filtering by "holds rank, not yet added" picks exactly the group. */
  lemma {:induction false} RankFilterIsGroup(xs: seq<Resident>, rank: string, acc: seq<Resident>, order: seq<string>, k: nat)
    requires forall x :: x in xs ==> (x.HasTownRank(rank) && x !in acc <==> Key(x, order) == k)
    ensures FilterOut(WithRank(xs, rank), acc) == KeyIs(xs, order, k)
  {
    if xs != [] {
      var init := xs[..|xs| - 1];
      var last := xs[|xs| - 1];
      assert xs == init + [last];
      assert last in xs;
      forall x | x in init ensures x in xs {
        assert x in init + [last];
      }
      RankFilterIsGroup(init, rank, acc, order, k);
      var w0 := WithRank(init, rank);
      if last.HasTownRank(rank) {
        var w := w0 + [last];
        assert WithRank(xs, rank) == w;
        assert w[..|w| - 1] == w0;
        assert FilterOut(w, acc) == FilterOut(w0, acc) + (if last in acc then [] else [last]);
      } else {
        assert WithRank(xs, rank) == w0;
      }
    }
  }

  /** Filtering by "not yet added" picks exactly the group. */
  lemma {:induction false} RestFilterIsGroup(xs: seq<Resident>, acc: seq<Resident>, order: seq<string>, k: nat)
    requires forall x :: x in xs ==> (x !in acc <==> Key(x, order) == k)
    ensures FilterOut(xs, acc) == KeyIs(xs, order, k)
  {
    if xs != [] {
      var init := xs[..|xs| - 1];
      assert xs == init + [xs[|xs| - 1]];
      RestFilterIsGroup(init, acc, order, k);
    }
  }

  /** After the first k configured ranks the set holds groups 0 .. k-1. */
  lemma {:induction false} RankFoldIsGrouped(roster: seq<Resident>, order: seq<string>, k: nat)
    requires NoDup(roster) && k <= |order|
    ensures RankFold(roster, order[..k]) == Grouped(roster, order, k)
  {
    if k > 0 {
      RankFoldIsGrouped(roster, order, k - 1);
      assert order[..k][..k - 1] == order[..k - 1];
      assert order[..k][k - 1] == order[k - 1];
      var g := Grouped(roster, order, k - 1);
      var ranked := WithRank(roster, order[k - 1]);
      assert RankFold(roster, order[..k]) == AddAll(g, ranked);
      NoDupWithRank(roster, order[k - 1]);
      AddAllAppendsNew(g, ranked);
      RankFilterIsGroup(roster, order[k - 1], g, order, k - 1);
    }
  }

  lemma {:induction false} NoDupWithRank(roster: seq<Resident>, rank: string)
    requires NoDup(roster)
    ensures NoDup(WithRank(roster, rank))
  {
    if roster != [] {
      var init := roster[..|roster| - 1];
      var last := roster[|roster| - 1];
      NoDupPrefix(roster, |roster| - 1);
      NoDupWithRank(init, rank);
      if last.HasTownRank(rank) {
        assert last !in init by {
          forall i | 0 <= i < |init| ensures init[i] != last {
            assert init[i] == roster[i];
          }
        }
        NoDupAppend(WithRank(init, rank), last);
      }
    }
  }

  /** The set before the mayor is removed is every group in turn. */
  lemma AllIsGrouped(roster: seq<Resident>, order: seq<string>)
    requires NoDup(roster)
    ensures AddAll(RankFold(roster, order), roster) == Grouped(roster, order, |order| + 1)
  {
    RankFoldIsGrouped(roster, order, |order|);
    assert order[..|order|] == order;
    var g := Grouped(roster, order, |order|);
    AddAllAppendsNew(g, roster);
    RestFilterIsGroup(roster, g, order, |order|);
  }

  /** A group keeps roster order. */
  lemma {:induction false} KeyIsInRosterOrder(roster: seq<Resident>, order: seq<string>, k: nat)
    ensures forall i, j :: 0 <= i < j < |KeyIs(roster, order, k)| ==>
      Before(roster, KeyIs(roster, order, k)[i], KeyIs(roster, order, k)[j])
  {
    if roster != [] {
      var init := roster[..|roster| - 1];
      var last := roster[|roster| - 1];
      KeyIsInRosterOrder(init, order, k);
      var g := KeyIs(init, order, k);
      var r := KeyIs(roster, order, k);
      forall i, j | 0 <= i < j < |r| ensures Before(roster, r[i], r[j]) {
        if j < |g| {
          assert r[i] == g[i] && r[j] == g[j];
          var a, b :| 0 <= a < b < |init| && init[a] == g[i] && init[b] == g[j];
          assert roster[a] == init[a] && roster[b] == init[b];
        } else {
          assert r[j] == last && r[i] == g[i];
          assert g[i] in init;
          var a :| 0 <= a < |init| && init[a] == g[i];
          assert roster[a] == init[a] && roster[|roster| - 1] == last;
        }
      }
    }
  }

  lemma {:induction false} GroupedOrdered(roster: seq<Resident>, order: seq<string>, k: nat)
    ensures Ordered(roster, order, Grouped(roster, order, k))
  {
    if k > 0 {
      GroupedOrdered(roster, order, k - 1);
      GroupedOrderedStep(roster, order, k);
    }
  }

  /** Appending group k - 1 to the earlier groups keeps them ordered. */
  lemma GroupedOrderedStep(roster: seq<Resident>, order: seq<string>, k: nat)
    requires k > 0 && Ordered(roster, order, Grouped(roster, order, k - 1))
    ensures Ordered(roster, order, Grouped(roster, order, k))
  {
    KeyIsOrdered(roster, order, k - 1);
    OrderedConcat(roster, order, Grouped(roster, order, k - 1), KeyIs(roster, order, k - 1),
                  k - 1, Grouped(roster, order, k));
  }

  /** A group is ordered: one key, roster order. */
  lemma KeyIsOrdered(roster: seq<Resident>, order: seq<string>, k: nat)
    ensures Ordered(roster, order, KeyIs(roster, order, k))
  {
    var h := KeyIs(roster, order, k);
    KeyIsInRosterOrder(roster, order, k);
    forall i, j | 0 <= i < j < |h| ensures Precedes(roster, order, h[i], h[j]) {
      assert h[i] in h && h[j] in h;
    }
  }

  /** An ordered list of groups below k followed by an ordered group k is
      ordered. */
  lemma OrderedConcat(roster: seq<Resident>, order: seq<string>, g: seq<Resident>, h: seq<Resident>,
                      k: nat, r: seq<Resident>)
    requires Ordered(roster, order, g) && Ordered(roster, order, h)
    requires forall x :: x in g ==> Key(x, order) < k
    requires forall y :: y in h ==> Key(y, order) == k
    requires r == g + h
    ensures Ordered(roster, order, r)
  {
    forall i, j | 0 <= i < j < |r| ensures Precedes(roster, order, r[i], r[j]) {
      if j < |g| {
        assert r[i] == g[i] && r[j] == g[j];
      } else if i >= |g| {
        assert r[i] == h[i - |g|] && r[j] == h[j - |g|];
      } else {
        assert r[i] == g[i] && r[j] == h[j - |g|];
        assert g[i] in g && h[j - |g|] in h;
      }
    }
  }

  lemma OrderedTail(roster: seq<Resident>, order: seq<string>, s: seq<Resident>)
    requires Ordered(roster, order, s) && s != []
    ensures Ordered(roster, order, s[1..])
    ensures forall y :: y in s[1..] ==> Precedes(roster, order, s[0], y)
  {
    forall i, j | 0 <= i < j < |s[1..]| ensures Precedes(roster, order, s[1..][i], s[1..][j]) {
      assert s[1..][i] == s[i + 1] && s[1..][j] == s[j + 1];
    }
    forall y | y in s[1..] ensures Precedes(roster, order, s[0], y) {
      var t :| 0 <= t < |s[1..]| && s[1..][t] == y;
      assert s[t + 1] == y;
    }
  }

  lemma OrderedCons(roster: seq<Resident>, order: seq<string>, x: Resident, s: seq<Resident>)
    requires Ordered(roster, order, s)
    requires forall y :: y in s ==> Precedes(roster, order, x, y)
    ensures Ordered(roster, order, [x] + s)
  {
    var r := [x] + s;
    forall i, j | 0 <= i < j < |r| ensures Precedes(roster, order, r[i], r[j]) {
      assert r[j] == s[j - 1];
      if i > 0 {
        assert r[i] == s[i - 1];
      }
    }
  }

  lemma {:induction false} DiscardOrdered(roster: seq<Resident>, order: seq<string>, s: seq<Resident>, x: Resident)
    requires Ordered(roster, order, s)
    ensures Ordered(roster, order, Discard(s, x))
  {
    if s != [] {
      OrderedTail(roster, order, s);
      if s[0] != x {
        DiscardOrdered(roster, order, s[1..], x);
        var rest := Discard(s[1..], x);
        forall y | y in rest ensures y in s[1..] {
          assert multiset(rest)[y] > 0;
        }
        OrderedCons(roster, order, s[0], rest);
      }
    }
  }

  /** getMayoralSuccession: duplicate-free, everyone but the mayor, and no one
      else; ranked residents first, by configured rank order, roster order
      within a group. */
  lemma SuccessionOrderSpec(roster: seq<Resident>, order: seq<string>, mayor: Option<Resident>)
    requires NoDup(roster)
    ensures NoDup(SuccessionOrder(roster, order, mayor))
    ensures forall x :: x in SuccessionOrder(roster, order, mayor) <==> x in roster && mayor != Some(x)
    ensures Ordered(roster, order, SuccessionOrder(roster, order, mayor))
  {
    AllIsGrouped(roster, order);
    var g := Grouped(roster, order, |order| + 1);
    GroupedNoDup(roster, order, |order| + 1);
    GroupedOrdered(roster, order, |order| + 1);
    forall x | x in roster ensures x in g {
      assert Key(x, order) < |order| + 1;
    }
    if mayor.Some? {
      DiscardNoDup(g, mayor.value);
      DiscardOrdered(roster, order, g, mayor.value);
      forall x ensures x in Discard(g, mayor.value) <==> x in roster && mayor != Some(x) {
        DiscardMembers(g, mayor.value, x);
      }
    }
  }

  /** A resident holding a configured rank comes before every resident that
      holds none. */
  lemma RankedBeforeUnranked(roster: seq<Resident>, order: seq<string>, mayor: Option<Resident>, i: nat, j: nat)
    requires NoDup(roster)
    requires i < |SuccessionOrder(roster, order, mayor)| && j < |SuccessionOrder(roster, order, mayor)|
    requires exists r :: r in order && SuccessionOrder(roster, order, mayor)[i].HasTownRank(r)
    requires forall r :: r in order ==> !SuccessionOrder(roster, order, mayor)[j].HasTownRank(r)
    ensures i < j
  {
    var s := SuccessionOrder(roster, order, mayor);
    SuccessionOrderSpec(roster, order, mayor);
    var r :| r in order && s[i].HasTownRank(r);
    var t :| 0 <= t < |order| && order[t] == r;
    assert Key(s[i], order) <= t;
    assert Key(s[j], order) == |order|;
    if j < i {
      OrderedKeys(roster, order, s, j, i);
    }
  }

  /** In an ordered list the groups never decrease. */
  lemma OrderedKeys(roster: seq<Resident>, order: seq<string>, s: seq<Resident>, i: nat, j: nat)
    requires Ordered(roster, order, s) && i < j < |s|
    ensures Key(s[i], order) <= Key(s[j], order)
  {
    assert Precedes(roster, order, s[i], s[j]);
  }

  /** The outgoing mayor is never its own successor. */
  lemma MayorNotInSuccession(roster: seq<Resident>, order: seq<string>, m: Resident)
    requires NoDup(roster)
    ensures m !in SuccessionOrder(roster, order, Some(m))
  {
    SuccessionOrderSpec(roster, order, Some(m));
  }

  /** The succession order is empty exactly when no one but the mayor is
      on the roster. */
  lemma SuccessionEmptyIff(roster: seq<Resident>, order: seq<string>, mayor: Option<Resident>)
    requires NoDup(roster)
    ensures SuccessionOrder(roster, order, mayor) == [] <==> forall x :: x in roster ==> mayor == Some(x)
  {
    SuccessionOrderSpec(roster, order, mayor);
    var s := SuccessionOrder(roster, order, mayor);
    if s != [] {
      assert s[0] in s;
    }
  }

  /** One succession rank, held only by b: on the roster a (mayor), b, c the
      order is b then c, so b succeeds a. */
  lemma SuccessionExample(a: Resident, b: Resident, c: Resident, rank: string)
    requires b.HasTownRank(rank) && !a.HasTownRank(rank) && !c.HasTownRank(rank)
    requires a != b && b != c && a != c
    ensures SuccessionOrder([a, b, c], [rank], Some(a)) == [b, c]
  {
    ExampleRankFold(a, b, c, rank);
    ExampleAddAll(a, b, c);
    assert Discard([b, a, c], a) == [b] + Discard([a, c], a);
  }

  lemma ExampleRankFold(a: Resident, b: Resident, c: Resident, rank: string)
    requires b.HasTownRank(rank) && !a.HasTownRank(rank) && !c.HasTownRank(rank)
    ensures RankFold([a, b, c], [rank]) == [b]
  {
    assert [a, b, c][..2] == [a, b] && [a, b][..1] == [a] && [a][..0] == [];
    assert WithRank([a], rank) == [];
    assert WithRank([a, b], rank) == [b];
    assert WithRank([a, b, c], rank) == [b];
    assert [rank][..0] == [];
    assert RankFold([a, b, c], [rank]) == AddAll([], [b]);
    assert [b][..0] == [];
  }

  lemma ExampleAddAll(a: Resident, b: Resident, c: Resident)
    requires a != b && b != c && a != c
    ensures AddAll([b], [a, b, c]) == [b, a, c]
  {
    assert [a, b, c][..2] == [a, b] && [a, b][..1] == [a] && [a][..0] == [];
    assert AddAll([b], [a]) == [b, a];
    assert AddAll([b], [a, b]) == [b, a];
  }

  /** Rank comes before roster order: on the roster c, b with no mayor, the
      rank holder b is first. */
  lemma RankBeatsRosterExample(b: Resident, c: Resident, rank: string)
    requires b.HasTownRank(rank) && !c.HasTownRank(rank) && b != c
    ensures SuccessionOrder([c, b], [rank], None) == [b, c]
  {
    assert [c, b][..1] == [c] && [c][..0] == [];
    assert WithRank([c], rank) == [];
    assert WithRank([c, b], rank) == [b];
    assert [rank][..0] == [];
    assert RankFold([c, b], [rank]) == AddAll([], [b]);
    assert [b][..0] == [];
    assert AddAll([], [b]) == [b];
    assert AddAll([b], [c]) == [b, c];
    assert AddAll([b], [c, b]) == [b, c];
  }
}
