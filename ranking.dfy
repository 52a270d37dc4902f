/**
 * The ranking tail of `check_steam_discounts`: a stable sort by discount (highest first), a pass that keeps
 * the first listing of every title, and the cap at ten.
 */
module Ranking {
  import opened Common
  import opened Listings

  const MaxDiscounts: nat := 10

  predicate SortedByDiscount(s: seq<Listing>) {
    forall i, j :: 0 <= i < j < |s| ==> Percent(s[i]) >= Percent(s[j])
  }

  predicate DistinctIds(s: seq<Listing>) {
    forall i, j :: 0 <= i < j < |s| ==> s[i].id != s[j].id
  }

  predicate DistinctTitles(s: seq<Listing>) {
    forall i, j :: 0 <= i < j < |s| ==> s[i].title != s[j].title
  }

  /** Put `x` in front of the first listing whose discount is not higher than its own. */
  function Insert(x: Listing, t: seq<Listing>): seq<Listing> {
    if t == [] then [x]
    else if Percent(t[0]) <= Percent(x) then [x] + t
    else [t[0]] + Insert(x, t[1..])
  }

  /** `list.sort(key=lambda x: x['discount'], reverse=True)`, a stable sort: of two listings with the same
      discount, the earlier one stays in front. */
  function SortByDiscount(s: seq<Listing>): seq<Listing> {
    if s == [] then [] else Insert(s[0], SortByDiscount(s[1..]))
  }

  /** The first listing of `t` with title `title`. */
  function FirstWithTitle(t: seq<Listing>, title: string): Option<Listing> {
    if t == [] then None
    else if t[0].title == title then Some(t[0])
    else FirstWithTitle(t[1..], title)
  }

  /** Of the listings of `s` with title `title`, the first one among those with the highest discount. */
  function BestWithTitle(s: seq<Listing>, title: string): Option<Listing> {
    if s == [] then None
    else
      var rest := BestWithTitle(s[1..], title);
      if s[0].title != title then rest
      else if rest.Some? && Percent(rest.value) > Percent(s[0]) then rest
      else Some(s[0])
  }

  lemma {:induction false} InsertContents(x: Listing, t: seq<Listing>)
    ensures multiset(Insert(x, t)) == multiset{x} + multiset(t)
  {
    if t != [] && Percent(t[0]) > Percent(x) {
      InsertContents(x, t[1..]);
      assert t == [t[0]] + t[1..];
    }
  }

  lemma {:induction false} InsertSorted(x: Listing, t: seq<Listing>)
    requires SortedByDiscount(t)
    ensures SortedByDiscount(Insert(x, t))
  {
    if t != [] && Percent(t[0]) > Percent(x) {
      InsertSorted(x, t[1..]);
      InsertContents(x, t[1..]);
      var r := Insert(x, t[1..]);
      forall k | 0 <= k < |r| ensures Percent(t[0]) >= Percent(r[k]) {
        assert r[k] in multiset(r);
        if r[k] != x {
          assert r[k] in t[1..];
          var m :| 0 <= m < |t[1..]| && t[1..][m] == r[k];
          assert t[m + 1] == r[k];
        }
      }
    }
  }

  /** The sort returns a permutation of its input, ordered by discount. */
  lemma {:induction false} SortByDiscountCorrect(s: seq<Listing>)
    ensures SortedByDiscount(SortByDiscount(s))
    ensures multiset(SortByDiscount(s)) == multiset(s)
  {
    if s != [] {
      SortByDiscountCorrect(s[1..]);
      InsertSorted(s[0], SortByDiscount(s[1..]));
      InsertContents(s[0], SortByDiscount(s[1..]));
      assert s == [s[0]] + s[1..];
    }
  }

  /** Where `Insert` puts `x`: after exactly the listings with a strictly higher discount that lead `t`. */
  lemma {:induction false} InsertSplit(x: Listing, t: seq<Listing>) returns (p: nat)
    ensures p <= |t| && Insert(x, t) == t[..p] + [x] + t[p..]
    ensures forall q :: 0 <= q < p ==> Percent(t[q]) > Percent(x)
  {
    if t == [] || Percent(t[0]) <= Percent(x) {
      p := 0;
      assert t[..0] == [] && t[0..] == t;
    } else {
      var p' := InsertSplit(x, t[1..]);
      p := p' + 1;
      assert t[..p] == [t[0]] + t[1..][..p'];
      assert t[p..] == t[1..][p'..];
      forall q | 0 <= q < p ensures Percent(t[q]) > Percent(x) {
        if q > 0 { assert t[q] == t[1..][q - 1]; }
      }
    }
  }

  /** The sort is stable: two listings of equal discount keep their relative order. */
  lemma {:induction false} SortStable(s: seq<Listing>)
    ensures TiesInOrder(SortByDiscount(s), s)
  {
    if s != [] {
      var t := SortByDiscount(s[1..]);
      SortStable(s[1..]);
      SortByDiscountCorrect(s[1..]);
      var p := InsertSplit(s[0], t);
      InsertKeepsTieOrder(s, t, p);
    }
  }

  /** One insertion step of the sort keeps equal discounts in the order of `s`. */
  lemma InsertKeepsTieOrder(s: seq<Listing>, t: seq<Listing>, p: nat)
    requires s != [] && multiset(t) == multiset(s[1..]) && TiesInOrder(t, s[1..])
    requires p <= |t| && forall q :: 0 <= q < p ==> Percent(t[q]) > Percent(s[0])
    ensures TiesInOrder(t[..p] + [s[0]] + t[p..], s)
  {
    var r := t[..p] + [s[0]] + t[p..];
    forall a, b | 0 <= a < b < |r| && Percent(r[a]) == Percent(r[b]) ensures Precedes(s, r[a], r[b]) {
      assert a < p ==> r[a] == t[a];
      assert r[p] == s[0];
      if a == p {
        assert r[b] == t[b - 1];
        HeadPrecedes(s, r[b]);
      } else {
        assert b != p;
        var a' := if a < p then a else a - 1;
        var b' := if b < p then b else b - 1;
        assert r[a] == t[a'] && r[b] == t[b'] && a' < b';
        TailPrecedes(s, t[a'], t[b']);
      }
    }
  }

  lemma HeadPrecedes(s: seq<Listing>, y: Listing)
    requires s != [] && y in multiset(s[1..])
    ensures Precedes(s, s[0], y)
  {
    var j :| 0 <= j < |s[1..]| && s[1..][j] == y;
    assert s[j + 1] == y;
  }

  lemma TailPrecedes(s: seq<Listing>, x: Listing, y: Listing)
    requires s != [] && Precedes(s[1..], x, y)
    ensures Precedes(s, x, y)
  {
    var i, j :| 0 <= i < j < |s[1..]| && s[1..][i] == x && s[1..][j] == y;
    assert s[i + 1] == x && s[j + 1] == y;
  }

  lemma {:induction false} FirstWithTitleIn(t: seq<Listing>, title: string)
    ensures FirstWithTitle(t, title).Some? ==> FirstWithTitle(t, title).value in t && FirstWithTitle(t, title).value.title == title
  {
    if t != [] && t[0].title != title {
      FirstWithTitleIn(t[1..], title);
    }
  }

  /** Inserting `x` into a sorted list changes the first listing of a title as `BestWithTitle` prescribes. */
  lemma {:induction false} InsertFirstWithTitle(x: Listing, t: seq<Listing>, title: string)
    requires SortedByDiscount(t)
    ensures FirstWithTitle(Insert(x, t), title) ==
              (var rest := FirstWithTitle(t, title);
               if x.title != title then rest
               else if rest.Some? && Percent(rest.value) > Percent(x) then rest
               else Some(x))
  {
    if t == [] {
    } else if Percent(t[0]) <= Percent(x) {
      FirstWithTitleIn(t, title);
      var rest := FirstWithTitle(t, title);
      if rest.Some? {
        var m :| 0 <= m < |t| && t[m] == rest.value;
        assert m == 0 || Percent(t[0]) >= Percent(t[m]);
      }
      assert Insert(x, t)[1..] == t;
    } else {
      assert SortedByDiscount(t[1..]) by {
        forall i, j | 0 <= i < j < |t[1..]| ensures Percent(t[1..][i]) >= Percent(t[1..][j]) {
          assert t[1..][i] == t[i + 1] && t[1..][j] == t[j + 1];
        }
      }
      InsertFirstWithTitle(x, t[1..], title);
      assert Insert(x, t)[0] == t[0] && Insert(x, t)[1..] == Insert(x, t[1..]);
    }
  }

  /** After the stable sort, the first listing of each title is that title's best one in discovery order. */
  lemma {:induction false} SortFirstWithTitle(s: seq<Listing>, title: string)
    ensures FirstWithTitle(SortByDiscount(s), title) == BestWithTitle(s, title)
  {
    if s != [] {
      SortByDiscountCorrect(s[1..]);
      SortFirstWithTitle(s[1..], title);
      InsertFirstWithTitle(s[0], SortByDiscount(s[1..]), title);
    }
  }

  /** What `BestWithTitle` picks: a listing of that title at some position `j`, with a discount no listing of that
      title beats, and strictly above every listing of that title before position `j`. */
  lemma {:induction false} BestWithTitleSpec(s: seq<Listing>, title: string)
    ensures BestWithTitle(s, title).None? <==> forall i :: 0 <= i < |s| ==> s[i].title != title
    ensures BestWithTitle(s, title).Some? ==>
              var y := BestWithTitle(s, title).value;
              && y.title == title
              && (forall i :: 0 <= i < |s| && s[i].title == title ==> Percent(s[i]) <= Percent(y))
              && exists j :: 0 <= j < |s| && s[j] == y
                   && forall i :: 0 <= i < j && s[i].title == title ==> Percent(s[i]) < Percent(y)
  {
    if s != [] {
      BestWithTitleSpec(s[1..], title);
      var rest := BestWithTitle(s[1..], title);
      var y := BestWithTitle(s, title);
      forall i | 0 <= i < |s[1..]| ensures s[1..][i] == s[i + 1] { }
      if s[0].title == title && !(rest.Some? && Percent(rest.value) > Percent(s[0])) {
        assert y == Some(s[0]);
        assert s[0] == s[0];
        forall i | 0 <= i < |s| && s[i].title == title ensures Percent(s[i]) <= Percent(s[0]) {
          if i > 0 { assert s[1..][i - 1].title == title; }
        }
      } else if rest.Some? {
        assert y == rest;
        var j :| 0 <= j < |s[1..]| && s[1..][j] == rest.value
                 && forall i :: 0 <= i < j && s[1..][i].title == title ==> Percent(s[1..][i]) < Percent(rest.value);
        assert s[j + 1] == rest.value;
        forall i | 0 <= i < j + 1 && s[i].title == title ensures Percent(s[i]) < Percent(rest.value) {
          if i > 0 { assert s[1..][i - 1] == s[i]; }
        }
        forall i | 0 <= i < |s| && s[i].title == title ensures Percent(s[i]) <= Percent(rest.value) {
          if i > 0 { assert s[1..][i - 1] == s[i]; }
        }
      }
    }
  }

  /** A listing whose title does not occur before position `i` is the first of its title. */
  lemma {:induction false} FirstWithTitleAt(t: seq<Listing>, i: nat)
    requires i < |t| && forall j :: 0 <= j < i ==> t[j].title != t[i].title
    ensures FirstWithTitle(t, t[i].title) == Some(t[i])
  {
    if i > 0 {
      forall j | 0 <= j < i - 1 ensures t[1..][j].title != t[1..][i - 1].title {
        assert t[1..][j] == t[j + 1];
      }
      FirstWithTitleAt(t[1..], i - 1);
    }
  }

  /** Every listing of `u` occurs in `t`, and in the same relative order. */
  ghost predicate OrderedIn(u: seq<Listing>, t: seq<Listing>) {
    forall a, b :: 0 <= a < b < |u| ==> Precedes(t, u[a], u[b])
  }

  /** `x` occurs in `t` at some position before one holding `y`. */
  ghost predicate Precedes(t: seq<Listing>, x: Listing, y: Listing) {
    exists i, j :: 0 <= i < j < |t| && t[i] == x && t[j] == y
  }

  /** Every listing of `u` is the first one of its title in `t`. */
  ghost predicate FirstsOfTitles(u: seq<Listing>, t: seq<Listing>) {
    forall k :: 0 <= k < |u| ==> FirstWithTitle(t, u[k].title) == Some(u[k])
  }

  /** The titles occurring in `u`. */
  function TitlesOf(u: seq<Listing>): set<string> {
    set k | 0 <= k < |u| :: u[k].title
  }

  /** Every title of `t` occurs in `u`. */
  ghost predicate CoversTitles(u: seq<Listing>, t: seq<Listing>) {
    forall i :: 0 <= i < |t| ==> t[i].title in TitlesOf(u)
  }

  /** The state of the dedupe loop after the first `i` listings of `t`: `u` holds the first listing of each title
      seen so far, `pos` says where each sits in `t`, and `slot` where each seen title sits in `u`. */
  ghost predicate DedupeInv(t: seq<Listing>, i: nat, u: seq<Listing>, seenTitles: set<string>,
                            pos: seq<nat>, slot: map<string, nat>)
  {
    && i <= |t| && |pos| == |u|
    && (forall k :: 0 <= k < |u| ==> pos[k] < i && t[pos[k]] == u[k])
    && (forall a, b :: 0 <= a < b < |u| ==> pos[a] < pos[b])
    && (forall k :: 0 <= k < |u| ==> u[k].title in seenTitles)
    && seenTitles == slot.Keys
    && (forall title :: title in slot ==> slot[title] < |u| && u[slot[title]].title == title)
    && (forall j :: 0 <= j < i ==> t[j].title in seenTitles)
    && DistinctTitles(u)
    && (forall k, j :: 0 <= k < |u| && 0 <= j < pos[k] ==> t[j].title != u[k].title)
  }

  /** Keeping a listing of a new title preserves the loop state. */
  lemma DedupeKeep(t: seq<Listing>, i: nat, u: seq<Listing>, seenTitles: set<string>,
                   pos: seq<nat>, slot: map<string, nat>)
    requires i < |t| && DedupeInv(t, i, u, seenTitles, pos, slot) && t[i].title !in seenTitles
    ensures DedupeInv(t, i + 1, u + [t[i]], seenTitles + {t[i].title}, pos + [i], slot[t[i].title := |u|])
  {
    var u' := u + [t[i]];
    assert forall k :: 0 <= k < |u| ==> u'[k] == u[k];
    assert u'[|u|] == t[i];
  }

  /** The title-dedupe loop of `check_steam_discounts`: keep the first listing of every title. */
  method DedupeByTitle(t: seq<Listing>) returns (u: seq<Listing>)
    ensures DistinctTitles(u)
    ensures FirstsOfTitles(u, t)
    ensures CoversTitles(u, t)
    ensures OrderedIn(u, t)
  {
    u := [];
    var seenTitles: set<string> := {};
    ghost var pos: seq<nat> := [];
    ghost var slot: map<string, nat> := map[];
    for i := 0 to |t|
      invariant DedupeInv(t, i, u, seenTitles, pos, slot)
    {
      var game := t[i];
      if game.title !in seenTitles {
        DedupeKeep(t, i, u, seenTitles, pos, slot);
        seenTitles := seenTitles + {game.title};
        slot := slot[game.title := |u|];
        pos := pos + [i];
        u := u + [game];
      }
    }
    DedupeOutcome(t, u, seenTitles, pos, slot);
  }

  /** What the dedupe loop's final state means: each kept listing is the first of its title, every title of `t`
      is kept, and the kept listings are in the order of `t`. */
  lemma DedupeOutcome(t: seq<Listing>, u: seq<Listing>, seenTitles: set<string>, pos: seq<nat>, slot: map<string, nat>)
    requires DedupeInv(t, |t|, u, seenTitles, pos, slot)
    ensures FirstsOfTitles(u, t)
    ensures CoversTitles(u, t)
    ensures OrderedIn(u, t)
  {
    forall k | 0 <= k < |u| ensures FirstWithTitle(t, u[k].title) == Some(u[k]) {
      assert t[pos[k]] == u[k];
      FirstWithTitleAt(t, pos[k]);
    }
    SlotsCoverTitles(t, u, slot);
    forall a, b | 0 <= a < b < |u| ensures Precedes(t, u[a], u[b]) {
      assert t[pos[a]] == u[a] && t[pos[b]] == u[b];
    }
  }

  /** A map from every title of `t` to a position of `u` holding that title shows that `u` covers `t`'s titles. */
  lemma SlotsCoverTitles(t: seq<Listing>, u: seq<Listing>, slot: map<string, nat>)
    requires forall title :: title in slot ==> slot[title] < |u| && u[slot[title]].title == title
    requires forall j :: 0 <= j < |t| ==> t[j].title in slot
    ensures CoversTitles(u, t)
  {
    forall i | 0 <= i < |t| ensures t[i].title in TitlesOf(u) {
      var w := slot[t[i].title];
      assert 0 <= w < |u| && u[w].title == t[i].title;
    }
  }

  /** A listing kept in discovery order from a sorted list leaves it sorted. */
  lemma OrderedInSorted(u: seq<Listing>, t: seq<Listing>)
    requires SortedByDiscount(t) && OrderedIn(u, t)
    ensures SortedByDiscount(u)
  {
    forall a, b | 0 <= a < b < |u| ensures Percent(u[a]) >= Percent(u[b]) {
      assert Precedes(t, u[a], u[b]);
      var i, j :| 0 <= i < j < |t| && t[i] == u[a] && t[j] == u[b];
    }
  }

  lemma OrderedInDistinctIds(u: seq<Listing>, t: seq<Listing>)
    requires DistinctIds(t) && OrderedIn(u, t)
    ensures DistinctIds(u)
  {
    forall a, b | 0 <= a < b < |u| ensures u[a].id != u[b].id {
      assert Precedes(t, u[a], u[b]);
      var i, j :| 0 <= i < j < |t| && t[i] == u[a] && t[j] == u[b];
      assert t[i].id != t[j].id;
    }
  }

  /** A listing that is the first of its title in the sorted list is that title's best in discovery order. */
  lemma FirstAfterSortIsBest(discovered: seq<Listing>, y: Listing)
    requires FirstWithTitle(SortByDiscount(discovered), y.title) == Some(y)
    ensures y in discovered && BestWithTitle(discovered, y.title) == Some(y)
  {
    SortByDiscountCorrect(discovered);
    SortFirstWithTitle(discovered, y.title);
    FirstWithTitleIn(SortByDiscount(discovered), y.title);
    assert y in multiset(SortByDiscount(discovered));
  }

  /** A discovered listing whose title did not make the cut has no higher discount than the tenth kept one. */
  lemma CutRespectsRanking(discovered: seq<Listing>, unique: seq<Listing>, x: Listing, k: nat)
    requires SortedByDiscount(unique) && MaxDiscounts <= k < |unique|
    requires x in discovered && unique[k].title == x.title
    requires FirstWithTitle(SortByDiscount(discovered), x.title) == Some(unique[k])
    ensures Percent(x) <= Percent(unique[MaxDiscounts - 1])
  {
    SortFirstWithTitle(discovered, x.title);
    BestWithTitleSpec(discovered, x.title);
    var m :| 0 <= m < |discovered| && discovered[m] == x;
  }

  /** Every discovered title is among the kept ones, unless ten better-or-equal ones were kept. */
  lemma CapCoversTitles(discovered: seq<Listing>, unique: seq<Listing>, top: seq<Listing>, x: Listing)
    requires x in discovered
    requires SortedByDiscount(unique) && FirstsOfTitles(unique, SortByDiscount(discovered))
    requires CoversTitles(unique, SortByDiscount(discovered))
    requires top == if |unique| <= MaxDiscounts then unique else unique[..MaxDiscounts]
    ensures TitleKeptOrCut(top, x)
  {
    var sorted := SortByDiscount(discovered);
    SortByDiscountCorrect(discovered);
    assert x in multiset(sorted);
    var i :| 0 <= i < |sorted| && sorted[i] == x;
    assert sorted[i].title in TitlesOf(unique);
    var k :| 0 <= k < |unique| && unique[k].title == sorted[i].title;
    if k >= |top| {
      CutRespectsRanking(discovered, unique, x, k);
      assert top[MaxDiscounts - 1] == unique[MaxDiscounts - 1];
    } else {
      assert top[k].title == x.title;
      assert top[k].title in TitlesOf(top);
    }
  }

  /** Every listing of `top` was discovered and is the best of its title (see `BestWithTitle`). */
  predicate KeptAreBest(top: seq<Listing>, discovered: seq<Listing>) {
    forall k :: 0 <= k < |top| ==> top[k] in discovered && BestWithTitle(discovered, top[k].title) == Some(top[k])
  }

  /** The title of `x` is kept, or `top` is full and `x` does not beat its last entry. */
  predicate TitleKeptOrCut(top: seq<Listing>, x: Listing) {
    x.title in TitlesOf(top) || (|top| == MaxDiscounts && Percent(x) <= Percent(top[MaxDiscounts - 1]))
  }

  /** Every discovered title is kept, unless `top` is full and the listing does not beat its last entry. */
  predicate CutRespected(top: seq<Listing>, discovered: seq<Listing>) {
    forall x :: x in discovered ==> TitleKeptOrCut(top, x)
  }

  /** Kept listings with equal discounts are in discovery order. */
  ghost predicate TiesInOrder(top: seq<Listing>, discovered: seq<Listing>) {
    forall a, b :: 0 <= a < b < |top| && Percent(top[a]) == Percent(top[b]) ==> Precedes(discovered, top[a], top[b])
  }

  /** A discovered listing whose title was cut, and whose discount equals that of a kept listing, was discovered
      after that kept listing: ties at the cut are decided by discovery order. */
  ghost predicate CutTiesRespected(top: seq<Listing>, discovered: seq<Listing>) {
    forall x, k :: x in discovered && 0 <= k < |top| && x.title !in TitlesOf(top) && Percent(top[k]) == Percent(x)
      ==> Precedes(discovered, top[k], x)
  }

  /** The listings kept after sorting and deduplicating are each their title's best. */
  lemma CapKeepsBest(discovered: seq<Listing>, unique: seq<Listing>, top: seq<Listing>)
    requires FirstsOfTitles(unique, SortByDiscount(discovered))
    requires top == if |unique| <= MaxDiscounts then unique else unique[..MaxDiscounts]
    ensures KeptAreBest(top, discovered)
  {
    forall k | 0 <= k < |top| ensures top[k] in discovered && BestWithTitle(discovered, top[k].title) == Some(top[k]) {
      assert top[k] == unique[k];
      FirstAfterSortIsBest(discovered, unique[k]);
    }
  }

  /** The cut loses no title that beats the last kept listing. */
  lemma CapRespectsCut(discovered: seq<Listing>, unique: seq<Listing>, top: seq<Listing>)
    requires SortedByDiscount(unique) && FirstsOfTitles(unique, SortByDiscount(discovered))
    requires CoversTitles(unique, SortByDiscount(discovered))
    requires top == if |unique| <= MaxDiscounts then unique else unique[..MaxDiscounts]
    ensures CutRespected(top, discovered)
  {
    forall x | x in discovered ensures TitleKeptOrCut(top, x) {
      CapCoversTitles(discovered, unique, top, x);
    }
  }

  /** Listings of distinct titles drawn from a list with distinct ids have distinct ids. */
  lemma DistinctTitlesKeepIds(discovered: seq<Listing>, top: seq<Listing>)
    requires DistinctIds(discovered) && DistinctTitles(top) && KeptAreBest(top, discovered)
    ensures DistinctIds(top)
  {
    forall a, b | 0 <= a < b < |top| ensures top[a].id != top[b].id {
      var i :| 0 <= i < |discovered| && discovered[i] == top[a];
      var j :| 0 <= j < |discovered| && discovered[j] == top[b];
      assert i != j;
    }
  }

  /** Cutting a sorted list of distinct titles to its first ten keeps it sorted with distinct titles. */
  lemma CapPrefix(unique: seq<Listing>, top: seq<Listing>)
    requires SortedByDiscount(unique) && DistinctTitles(unique)
    requires top == if |unique| <= MaxDiscounts then unique else unique[..MaxDiscounts]
    ensures |top| <= MaxDiscounts && SortedByDiscount(top) && DistinctTitles(top)
  {
    assert forall k :: 0 <= k < |top| ==> top[k] == unique[k];
  }

  /** The sort, the title dedupe and the cap at ten that close `check_steam_discounts`. */
  method RankDiscounts(discovered: seq<Listing>) returns (top: seq<Listing>)
    ensures |top| <= MaxDiscounts
    ensures SortedByDiscount(top)
    ensures DistinctTitles(top)
    ensures KeptAreBest(top, discovered)
    ensures CutRespected(top, discovered)
    ensures TiesInOrder(top, discovered)
    ensures DistinctIds(discovered) ==> DistinctIds(top) && CutTiesRespected(top, discovered)
  {
    var sorted := SortByDiscount(discovered);
    SortByDiscountCorrect(discovered);
    var unique := DedupeByTitle(sorted);
    OrderedInSorted(unique, sorted);
    top := if |unique| <= MaxDiscounts then unique else unique[..MaxDiscounts];
    CapPrefix(unique, top);
    CapKeepsBest(discovered, unique, top);
    CapRespectsCut(discovered, unique, top);
    CapKeepsTieOrder(discovered, unique, top);
    if DistinctIds(discovered) {
      DistinctTitlesKeepIds(discovered, top);
      CapRespectsTies(discovered, unique, top);
    }
  }

  /** Kept listings of equal discount keep their discovery order, by the stability of the sort. */
  lemma CapKeepsTieOrder(discovered: seq<Listing>, unique: seq<Listing>, top: seq<Listing>)
    requires OrderedIn(unique, SortByDiscount(discovered))
    requires top == if |unique| <= MaxDiscounts then unique else unique[..MaxDiscounts]
    ensures TiesInOrder(top, discovered)
  {
    forall a, b | 0 <= a < b < |top| && Percent(top[a]) == Percent(top[b])
      ensures Precedes(discovered, top[a], top[b])
    {
      assert top[a] == unique[a] && top[b] == unique[b];
      UniqueTieOrder(discovered, unique, a, b);
    }
  }

  /** Two deduplicated listings of equal discount are in discovery order. */
  lemma UniqueTieOrder(discovered: seq<Listing>, unique: seq<Listing>, a: nat, b: nat)
    requires OrderedIn(unique, SortByDiscount(discovered))
    requires a < b < |unique| && Percent(unique[a]) == Percent(unique[b])
    ensures Precedes(discovered, unique[a], unique[b])
  {
    var sorted := SortByDiscount(discovered);
    SortStable(discovered);
    assert Precedes(sorted, unique[a], unique[b]);
    var i, j :| 0 <= i < j < |sorted| && sorted[i] == unique[a] && sorted[j] == unique[b];
  }

  /** The slot, beyond the cut, of a discovered listing's title that was not kept. */
  lemma DroppedTitleSlot(discovered: seq<Listing>, unique: seq<Listing>, top: seq<Listing>, x: Listing) returns (w: nat)
    requires x in discovered && CoversTitles(unique, SortByDiscount(discovered))
    requires top == if |unique| <= MaxDiscounts then unique else unique[..MaxDiscounts]
    requires x.title !in TitlesOf(top)
    ensures |top| <= w < |unique| && unique[w].title == x.title
  {
    var sorted := SortByDiscount(discovered);
    SortByDiscountCorrect(discovered);
    assert x in multiset(sorted);
    var i :| 0 <= i < |sorted| && sorted[i] == x;
    assert sorted[i].title in TitlesOf(unique);
    w :| 0 <= w < |unique| && unique[w].title == x.title;
    forall q | 0 <= q < |top| ensures top[q].title in TitlesOf(top) && top[q] == unique[q] {}
  }

  /** In a list of distinct ids, whatever precedes the first best listing `y` of a title precedes every listing of
      that title with `y`'s discount. */
  lemma PrecedesFirstBest(d: seq<Listing>, z: Listing, y: Listing, jy: nat, x: Listing)
    requires DistinctIds(d) && Precedes(d, z, y)
    requires jy < |d| && d[jy] == y
    requires forall i :: 0 <= i < jy && d[i].title == y.title ==> Percent(d[i]) < Percent(y)
    requires x in d && x.title == y.title && Percent(x) == Percent(y)
    ensures Precedes(d, z, x)
  {
    var di, dj :| 0 <= di < dj < |d| && d[di] == z && d[dj] == y;
    assert d[dj].id == d[jy].id;
    assert dj == jy;
    var jx :| 0 <= jx < |d| && d[jx] == x;
    assert jx >= jy;
  }

  /** Ties at the cut: a dropped listing with the discount of a kept one comes after it in discovery order. */
  lemma CapTieAtCut(discovered: seq<Listing>, unique: seq<Listing>, top: seq<Listing>, x: Listing, k: nat)
    requires DistinctIds(discovered)
    requires SortedByDiscount(unique) && FirstsOfTitles(unique, SortByDiscount(discovered))
    requires CoversTitles(unique, SortByDiscount(discovered)) && OrderedIn(unique, SortByDiscount(discovered))
    requires top == if |unique| <= MaxDiscounts then unique else unique[..MaxDiscounts]
    requires x in discovered && k < |top| && x.title !in TitlesOf(top) && Percent(top[k]) == Percent(x)
    ensures Precedes(discovered, top[k], x)
  {
    var w := DroppedTitleSlot(discovered, unique, top, x);
    var y := unique[w];
    assert top[k] == unique[k];
    FirstAfterSortIsBest(discovered, y);
    BestWithTitleSpec(discovered, x.title);
    var jx :| 0 <= jx < |discovered| && discovered[jx] == x;
    assert Percent(x) <= Percent(y) <= Percent(unique[k]);
    var jy :| 0 <= jy < |discovered| && discovered[jy] == y
              && forall i :: 0 <= i < jy && discovered[i].title == x.title ==> Percent(discovered[i]) < Percent(y);
    UniqueTieOrder(discovered, unique, k, w);
    PrecedesFirstBest(discovered, top[k], y, jy, x);
  }

  lemma CapRespectsTies(discovered: seq<Listing>, unique: seq<Listing>, top: seq<Listing>)
    requires DistinctIds(discovered)
    requires SortedByDiscount(unique) && FirstsOfTitles(unique, SortByDiscount(discovered))
    requires CoversTitles(unique, SortByDiscount(discovered)) && OrderedIn(unique, SortByDiscount(discovered))
    requires top == if |unique| <= MaxDiscounts then unique else unique[..MaxDiscounts]
    ensures CutTiesRespected(top, discovered)
  {
    forall x, k | x in discovered && 0 <= k < |top| && x.title !in TitlesOf(top) && Percent(top[k]) == Percent(x)
      ensures Precedes(discovered, top[k], x)
    {
      CapTieAtCut(discovered, unique, top, x, k);
    }
  }

  lemma {:induction false} InsertDistinctIds(x: Listing, t: seq<Listing>)
    requires DistinctIds(t) && forall y :: y in t ==> y.id != x.id
    ensures DistinctIds(Insert(x, t))
  {
    if t != [] && Percent(t[0]) > Percent(x) {
      assert DistinctIds(t[1..]) by {
        forall i, j | 0 <= i < j < |t[1..]| ensures t[1..][i].id != t[1..][j].id {
          assert t[1..][i] == t[i + 1] && t[1..][j] == t[j + 1];
        }
      }
      InsertDistinctIds(x, t[1..]);
      InsertContents(x, t[1..]);
      var r := Insert(x, t[1..]);
      forall k | 0 <= k < |r| ensures r[k].id != t[0].id {
        assert r[k] in multiset(r);
        if r[k] != x {
          var m :| 0 <= m < |t[1..]| && t[1..][m] == r[k];
          assert t[m + 1] == r[k];
        }
      }
      assert Insert(x, t) == [t[0]] + r;
    } else if t != [] {
      assert Insert(x, t) == [x] + t;
    }
  }

  /** Sorting keeps ids distinct. */
  lemma {:induction false} SortDistinctIds(s: seq<Listing>)
    requires DistinctIds(s)
    ensures DistinctIds(SortByDiscount(s))
  {
    if s != [] {
      assert DistinctIds(s[1..]) by {
        forall i, j | 0 <= i < j < |s[1..]| ensures s[1..][i].id != s[1..][j].id {
          assert s[1..][i] == s[i + 1] && s[1..][j] == s[j + 1];
        }
      }
      SortDistinctIds(s[1..]);
      SortByDiscountCorrect(s[1..]);
      forall y | y in SortByDiscount(s[1..]) ensures y.id != s[0].id {
        assert y in multiset(s[1..]);
        var m :| 0 <= m < |s[1..]| && s[1..][m] == y;
        assert s[m + 1] == y;
      }
      InsertDistinctIds(s[0], SortByDiscount(s[1..]));
    }
  }
}
