/**
 The money store: the coins and banknotes inserted during one payment, as a
 list of `{value, count}` entries keyed by face value, and a running `total`
 that every update adjusts alongside the list instead of recomputing it.
 */
module Money {
  import opened Wrappers
  import Seqs

  datatype Denomination = Denomination(value: int, count: int)

  datatype Tender = Tender(total: int, denominations: seq<Denomination>)

  function Value(d: Denomination): int { d.value }

  /** At most one entry per face value. */
  predicate UniqueValues(ds: seq<Denomination>)
  {
    Seqs.UniqueBy(ds, Value)
  }

  predicate HasValue(ds: seq<Denomination>, v: int)
  {
    exists i :: 0 <= i < |ds| && ds[i].value == v
  }

  predicate NonNegative(ds: seq<Denomination>)
  {
    forall i :: 0 <= i < |ds| ==> ds[i].count >= 0
  }

  /** The entry survives the pruning after a deduction. */
  predicate Held(d: Denomination)
  {
    d.count > 0
  }

  /** The money the entries stand for: the sum of `value * count`. */
  ghost function Sum(ds: seq<Denomination>): int
  {
    if |ds| == 0 then 0 else ds[0].value * ds[0].count + Sum(ds[1..])
  }

  /** How many pieces of face value `v` the entries hold. */
  function CountOf(ds: seq<Denomination>, v: int): int
  {
    if |ds| == 0 then 0 else (if ds[0].value == v then ds[0].count else 0) + CountOf(ds[1..], v)
  }

  /** The running total agrees with the entries. */
  ghost predicate Consistent(m: Tender)
  {
    m.total == Sum(m.denominations)
  }

  /** The store's invariant: one entry per value, no negative counts, a total that agrees with them. */
  ghost predicate WellFormed(m: Tender)
  {
    UniqueValues(m.denominations) && NonNegative(m.denominations) && Consistent(m)
  }

  /** The initial state, and the state `resetMoney` returns to. */
  function ResetMoney(): (r: Tender)
    ensures WellFormed(r)
    ensures r.total == 0 && |r.denominations| == 0
    ensures forall v :: CountOf(r.denominations, v) == 0
  {
    Tender(0, [])
  }

  function Bumped(d: Denomination, v: int, delta: int): Denomination
  {
    if d.value == v then d.(count := d.count + delta) else d
  }

  /** `map`: every entry of face value `v` gets `delta` more pieces. */
  function Bump(ds: seq<Denomination>, v: int, delta: int): (r: seq<Denomination>)
    ensures |r| == |ds|
    ensures forall i :: 0 <= i < |ds| ==> r[i] == Bumped(ds[i], v, delta)
  {
    if |ds| == 0 then [] else [Bumped(ds[0], v, delta)] + Bump(ds[1..], v, delta)
  }

  /** The entry `find` returns for face value `v`: the first one, if any. */
  function Existing(ds: seq<Denomination>, v: int): (r: Option<Denomination>)
    ensures r.None? <==> !HasValue(ds, v)
    ensures r.Some? ==> r.value in ds && r.value.value == v
    ensures r.Some? ==>
      exists k :: 0 <= k < |ds| && ds[k] == r.value && ds[k].value == v && forall j :: 0 <= j < k ==> ds[j].value != v
  {
    Seqs.Find(ds, (d: Denomination) => d.value == v)
  }

  /**
   `addMoney`: `total` grows by `value * count`; the pieces are merged into the
   entry for `value`, or appended as a new entry at the end.
   */
  function AddMoney(m: Tender, v: int, c: int): (r: Tender)
    ensures r.total == m.total + v * c
    ensures HasValue(m.denominations, v) ==>
      |r.denominations| == |m.denominations| &&
      forall i :: 0 <= i < |m.denominations| ==>
        r.denominations[i].value == m.denominations[i].value &&
        r.denominations[i].count == m.denominations[i].count + (if m.denominations[i].value == v then c else 0)
    ensures !HasValue(m.denominations, v) ==>
      |r.denominations| == |m.denominations| + 1 &&
      r.denominations[..|m.denominations|] == m.denominations &&
      r.denominations[|m.denominations|] == Denomination(v, c)
  {
    if Existing(m.denominations, v).Some? then
      Tender(m.total + v * c, Bump(m.denominations, v, c))
    else
      Tender(m.total + v * c, m.denominations + [Denomination(v, c)])
  }

  /** The guard of `deductMoney`: an entry for `v` exists and holds at least `c` pieces. */
  predicate Accepts(m: Tender, v: int, c: int)
  {
    var e := Existing(m.denominations, v);
    e.Some? && !(e.value.count < c)
  }

  /**
   `deductMoney`: a rejected request returns the state as it was; an accepted
   one takes `c` pieces of `v` off the entry and `v * c` off the total, then
   prunes every entry left without pieces.
   */
  function DeductMoney(m: Tender, v: int, c: int): (r: Tender)
    ensures !Accepts(m, v, c) ==> r == m
    ensures Accepts(m, v, c) ==> r.total == m.total - v * c
    ensures Accepts(m, v, c) ==> forall i :: 0 <= i < |r.denominations| ==> r.denominations[i].count > 0
  {
    if !Accepts(m, v, c) then m else Tender(m.total - v * c, Take(m.denominations, v, c))
  }

  /** The entries after taking `c` pieces of `v` and pruning the emptied ones. */
  function Take(ds: seq<Denomination>, v: int, c: int): (r: seq<Denomination>)
    ensures forall i :: 0 <= i < |r| ==> r[i].count > 0
  {
    Seqs.Filter(Bump(ds, v, -c), Held)
  }

  /** Entries of other values survive a deduction exactly when they held pieces. */
  lemma TakeKeepsOthers(ds: seq<Denomination>, v: int, c: int)
    ensures forall d: Denomination :: d.value != v ==> (d in Take(ds, v, c) <==> d in ds && d.count > 0)
  {
    var b := Bump(ds, v, -c);
    forall d: Denomination | d.value != v
      ensures d in b <==> d in ds
    {
      if d in b {
        var i :| 0 <= i < |b| && b[i] == d;
        assert ds[i] == d;
      }
      if d in ds {
        var i :| 0 <= i < |ds| && ds[i] == d;
        assert b[i] == d;
      }
    }
  }

  // ---------------------------------------------------------------------------
  // Views of the entries
  // ---------------------------------------------------------------------------

  lemma {:induction false} AbsentCount(ds: seq<Denomination>, v: int)
    requires !HasValue(ds, v)
    ensures CountOf(ds, v) == 0
    ensures Bump(ds, v, 0) == ds
  {
    if |ds| > 0 {
      assert !HasValue(ds[1..], v) by {
        forall i | 0 <= i < |ds[1..]| ensures ds[1..][i].value != v {
          assert ds[1..][i] == ds[i + 1];
        }
      }
      AbsentCount(ds[1..], v);
    }
  }

  /** In a unique-valued list the count of `v` is the count on its one entry. */
  lemma {:induction false} UniqueEntry(ds: seq<Denomination>, k: nat)
    requires UniqueValues(ds) && k < |ds|
    ensures CountOf(ds, ds[k].value) == ds[k].count
    ensures forall i :: 0 <= i < |ds| && i != k ==> ds[i].value != ds[k].value
  {
    assert forall i :: 0 <= i < |ds| && i != k ==> Value(ds[i]) != Value(ds[k]);
    Seqs.UniqueByTail(ds, Value);
    if k == 0 {
      forall i | 0 <= i < |ds[1..]|
        ensures ds[1..][i].value != ds[0].value
      {
        assert ds[1..][i] in ds[1..];
      }
      AbsentCount(ds[1..], ds[0].value);
    } else {
      assert ds[1..][k - 1] == ds[k];
      UniqueEntry(ds[1..], k - 1);
    }
  }

  lemma {:induction false} BumpViews(ds: seq<Denomination>, v: int, delta: int, w: int)
    requires UniqueValues(ds) && HasValue(ds, v)
    ensures CountOf(Bump(ds, v, delta), w) == CountOf(ds, w) + (if w == v then delta else 0)
    ensures Sum(Bump(ds, v, delta)) == Sum(ds) + v * delta
  {
    var k :| 0 <= k < |ds| && ds[k].value == v;
    UniqueEntry(ds, k);
    BumpCountSpread(ds, v, delta, w, k);
    BumpSumSpread(ds, v, delta, k);
  }

  /** Bumping the one entry for `v` moves only the count of `v`. */
  lemma {:induction false} BumpCountSpread(ds: seq<Denomination>, v: int, delta: int, w: int, k: nat)
    requires k < |ds| && ds[k].value == v
    requires forall i :: 0 <= i < |ds| && i != k ==> ds[i].value != v
    ensures CountOf(Bump(ds, v, delta), w) == CountOf(ds, w) + (if w == v then delta else 0)
    decreases k
  {
    var r := Bump(ds, v, delta);
    assert r[1..] == Bump(ds[1..], v, delta);
    if k == 0 {
      assert !HasValue(ds[1..], v) by {
        forall i | 0 <= i < |ds[1..]| ensures ds[1..][i].value != v {
          assert ds[1..][i] == ds[i + 1];
        }
      }
      BumpNothing(ds[1..], v, delta);
    } else {
      assert ds[1..][k - 1] == ds[k];
      assert forall i :: 0 <= i < |ds[1..]| && i != k - 1 ==> ds[1..][i] == ds[i + 1];
      BumpCountSpread(ds[1..], v, delta, w, k - 1);
    }
  }

  /** Bumping the one entry for `v` by `delta` pieces moves the sum by `v * delta`. */
  lemma {:induction false} BumpSumSpread(ds: seq<Denomination>, v: int, delta: int, k: nat)
    requires k < |ds| && ds[k].value == v
    requires forall i :: 0 <= i < |ds| && i != k ==> ds[i].value != v
    ensures Sum(Bump(ds, v, delta)) == Sum(ds) + v * delta
    decreases k
  {
    var r := Bump(ds, v, delta);
    assert r[1..] == Bump(ds[1..], v, delta);
    if k == 0 {
      assert !HasValue(ds[1..], v) by {
        forall i | 0 <= i < |ds[1..]| ensures ds[1..][i].value != v {
          assert ds[1..][i] == ds[i + 1];
        }
      }
      BumpNothing(ds[1..], v, delta);
      assert r[0].value * r[0].count == ds[0].value * ds[0].count + v * delta;
    } else {
      assert ds[1..][k - 1] == ds[k];
      assert forall i :: 0 <= i < |ds[1..]| && i != k - 1 ==> ds[1..][i] == ds[i + 1];
      BumpSumSpread(ds[1..], v, delta, k - 1);
    }
  }

  lemma BumpNothing(ds: seq<Denomination>, v: int, delta: int)
    requires !HasValue(ds, v)
    ensures Bump(ds, v, delta) == ds
  {
    var r := Bump(ds, v, delta);
    forall i | 0 <= i < |ds| ensures r[i] == ds[i] {
      assert ds[i].value != v;
    }
  }

  lemma {:induction false} AppendViews(ds: seq<Denomination>, d: Denomination, w: int)
    ensures CountOf(ds + [d], w) == CountOf(ds, w) + (if d.value == w then d.count else 0)
    ensures Sum(ds + [d]) == Sum(ds) + d.value * d.count
  {
    if |ds| == 0 {
      assert [d][1..] == [];
    } else {
      assert (ds + [d])[1..] == ds[1..] + [d];
      AppendViews(ds[1..], d, w);
    }
  }

  /** Pruning entries that hold no pieces changes neither the counts nor the sum. */
  lemma {:induction false} PruneViews(ds: seq<Denomination>, w: int)
    requires NonNegative(ds)
    ensures CountOf(Seqs.Filter(ds, Held), w) == CountOf(ds, w)
    ensures Sum(Seqs.Filter(ds, Held)) == Sum(ds)
  {
    if |ds| > 0 {
      assert NonNegative(ds[1..]) by {
        forall i | 0 <= i < |ds[1..]| ensures ds[1..][i].count >= 0 {
          assert ds[1..][i] == ds[i + 1];
        }
      }
      PruneViews(ds[1..], w);
      if Held(ds[0]) {
        assert ([ds[0]] + Seqs.Filter(ds[1..], Held))[1..] == Seqs.Filter(ds[1..], Held);
      } else {
        assert ds[0].count == 0;
      }
    }
  }

  lemma SameValuesKeepUnique(ds: seq<Denomination>, r: seq<Denomination>)
    requires UniqueValues(ds)
    requires |r| == |ds| && forall i :: 0 <= i < |ds| ==> r[i].value == ds[i].value
    ensures UniqueValues(r)
  {
    forall i, j | 0 <= i < j < |r| ensures Value(r[i]) != Value(r[j]) {
      assert Value(ds[i]) != Value(ds[j]);
    }
  }

  // ---------------------------------------------------------------------------
  // What each update does to the store
  // ---------------------------------------------------------------------------

  /**
   `addMoney` keeps one entry per value, adds exactly `c` pieces of `v` and
   none of any other value, and keeps the running total equal to the sum of
   `value * count`. With a non-negative `c` the whole invariant is kept.
   */
  lemma AddMoneyEffect(m: Tender, v: int, c: int)
    requires UniqueValues(m.denominations)
    ensures UniqueValues(AddMoney(m, v, c).denominations)
    ensures forall w :: (CountOf(AddMoney(m, v, c).denominations, w) ==
      CountOf(m.denominations, w) + (if w == v then c else 0))
    ensures Consistent(m) ==> Consistent(AddMoney(m, v, c))
    ensures WellFormed(m) && c >= 0 ==> WellFormed(AddMoney(m, v, c))
  {
    var ds := m.denominations;
    var r := AddMoney(m, v, c);
    if HasValue(ds, v) {
      assert r.denominations == Bump(ds, v, c);
      SameValuesKeepUnique(ds, r.denominations);
      forall w ensures CountOf(r.denominations, w) == CountOf(ds, w) + (if w == v then c else 0) {
        BumpViews(ds, v, c, w);
      }
      BumpViews(ds, v, c, v);
    } else {
      assert r.denominations == ds + [Denomination(v, c)];
      forall i, j | 0 <= i < j < |r.denominations|
        ensures Value(r.denominations[i]) != Value(r.denominations[j])
      {
        if j == |ds| {
          assert r.denominations[i] == ds[i];
        } else {
          assert Value(ds[i]) != Value(ds[j]);
        }
      }
      forall w ensures CountOf(r.denominations, w) == CountOf(ds, w) + (if w == v then c else 0) {
        AppendViews(ds, Denomination(v, c), w);
      }
      AppendViews(ds, Denomination(v, c), v);
    }
  }

  /** In a unique-valued store the guard reads: there are at least `c` pieces of `v`. */
  lemma AcceptsMeans(m: Tender, v: int, c: int)
    requires UniqueValues(m.denominations)
    ensures Accepts(m, v, c) <==> HasValue(m.denominations, v) && CountOf(m.denominations, v) >= c
  {
    var ds := m.denominations;
    if HasValue(ds, v) {
      var k :| 0 <= k < |ds| && ds[k].value == v;
      UniqueEntry(ds, k);
      var e := Existing(ds, v);
      var j :| 0 <= j < |ds| && ds[j] == e.value;
      assert j == k;
    }
  }

  /** Taking at most the pieces held from the one entry for `v` leaves no negative count. */
  lemma BumpDownNonNegative(ds: seq<Denomination>, v: int, c: int, k: nat)
    requires UniqueValues(ds) && NonNegative(ds)
    requires k < |ds| && ds[k].value == v && ds[k].count >= c
    ensures NonNegative(Bump(ds, v, -c)) && UniqueValues(Bump(ds, v, -c))
  {
    var b := Bump(ds, v, -c);
    UniqueEntry(ds, k);
    forall i | 0 <= i < |b| ensures b[i].count >= 0 {
      if ds[i].value == v {
        assert i == k;
      }
    }
    SameValuesKeepUnique(ds, b);
  }

  lemma TakeSum(ds: seq<Denomination>, v: int, c: int, k: nat)
    requires k < |ds| && ds[k].value == v
    requires forall i :: 0 <= i < |ds| && i != k ==> ds[i].value != v
    requires NonNegative(Bump(ds, v, -c))
    ensures Sum(Take(ds, v, c)) == Sum(ds) - v * c
  {
    var b := Bump(ds, v, -c);
    assert Take(ds, v, c) == Seqs.Filter(b, Held);
    BumpSumSpread(ds, v, -c, k);
    assert v * -c == -(v * c);
    assert Sum(b) == Sum(ds) - v * c;
    PruneViews(b, v);
  }

  lemma TakeCount(ds: seq<Denomination>, v: int, c: int, w: int, k: nat)
    requires k < |ds| && ds[k].value == v
    requires forall i :: 0 <= i < |ds| && i != k ==> ds[i].value != v
    requires NonNegative(Bump(ds, v, -c))
    ensures CountOf(Take(ds, v, c), w) == CountOf(ds, w) - (if w == v then c else 0)
  {
    var b := Bump(ds, v, -c);
    assert Take(ds, v, c) == Seqs.Filter(b, Held);
    BumpCountSpread(ds, v, -c, w, k);
    assert CountOf(b, w) == CountOf(ds, w) - (if w == v then c else 0);
    PruneViews(b, w);
  }

  /** Taking at most the pieces held keeps the invariant's parts, taking exactly `c` pieces of `v` and `v * c` THB. */
  lemma TakeViews(ds: seq<Denomination>, v: int, c: int, k: nat)
    requires UniqueValues(ds) && NonNegative(ds)
    requires k < |ds| && ds[k].value == v && ds[k].count >= c
    ensures UniqueValues(Take(ds, v, c)) && NonNegative(Take(ds, v, c))
    ensures Sum(Take(ds, v, c)) == Sum(ds) - v * c
    ensures forall w :: CountOf(Take(ds, v, c), w) == CountOf(ds, w) - (if w == v then c else 0)
  {
    var b := Bump(ds, v, -c);
    BumpDownNonNegative(ds, v, c, k);
    Seqs.FilterKeepsUnique(b, Held, Value);
    UniqueEntry(ds, k);
    forall w ensures CountOf(Take(ds, v, c), w) == CountOf(ds, w) - (if w == v then c else 0) {
      TakeCount(ds, v, c, w, k);
    }
    TakeSum(ds, v, c, k);
  }

  /**
   An accepted `deductMoney` on a well-formed store takes exactly `c` pieces of
   `v` and nothing else, and leaves the store well-formed; a rejected one
   changes nothing.
   */
  lemma DeductMoneyEffect(m: Tender, v: int, c: int)
    requires WellFormed(m)
    ensures WellFormed(DeductMoney(m, v, c))
    ensures Accepts(m, v, c) ==> forall w :: (CountOf(DeductMoney(m, v, c).denominations, w) ==
      CountOf(m.denominations, w) - (if w == v then c else 0))
  {
    if Accepts(m, v, c) {
      var ds := m.denominations;
      AcceptsMeans(m, v, c);
      var k :| 0 <= k < |ds| && ds[k].value == v;
      UniqueEntry(ds, k);
      DeductAccepted(m, v, c, k);
      DeductTakes(m, v, c);
    }
  }

  /** An accepted deduction is the take-and-prune of the entries with the total lowered by `v * c`. */
  lemma DeductTakes(m: Tender, v: int, c: int)
    requires Accepts(m, v, c)
    ensures DeductMoney(m, v, c) == Tender(m.total - v * c, Take(m.denominations, v, c))
  {
  }

  /** The map-then-filter keeps each surviving entry's multiplicity and the survivors' relative order. */
  lemma TakeOrder(ds: seq<Denomination>, v: int, c: int)
    ensures forall d :: (multiset(Take(ds, v, c))[d] == if d.count > 0 then multiset(Bump(ds, v, -c))[d] else 0)
    ensures Seqs.IsSubsequence(Take(ds, v, c), Bump(ds, v, -c))
  {
    Seqs.FilterOrder(Bump(ds, v, -c), Held);
  }

  /** An accepted deduction keeps the surviving entries in their order, each as often as before. */
  lemma DeductMoneyOrder(m: Tender, v: int, c: int)
    ensures Accepts(m, v, c) ==>
      (forall d :: (multiset(DeductMoney(m, v, c).denominations)[d] ==
        if d.count > 0 then multiset(Bump(m.denominations, v, -c))[d] else 0)) &&
      Seqs.IsSubsequence(DeductMoney(m, v, c).denominations, Bump(m.denominations, v, -c))
  {
    if Accepts(m, v, c) {
      DeductTakes(m, v, c);
      TakeOrder(m.denominations, v, c);
    }
  }

  /** A deduction leaves entries of other values alone: they survive exactly when they held pieces. */
  lemma DeductMoneyKeepsOthers(m: Tender, v: int, c: int)
    ensures Accepts(m, v, c) ==> forall d: Denomination :: d.value != v ==>
      (d in DeductMoney(m, v, c).denominations <==> d in m.denominations && d.count > 0)
  {
    TakeKeepsOthers(m.denominations, v, c);
  }

  /** The accepted case of `DeductMoneyEffect`, given the one entry `k` for `v`. */
  lemma DeductAccepted(m: Tender, v: int, c: int, k: nat)
    requires WellFormed(m)
    requires k < |m.denominations| && m.denominations[k].value == v && m.denominations[k].count >= c
    ensures WellFormed(Tender(m.total - v * c, Take(m.denominations, v, c)))
    ensures forall w :: (CountOf(Take(m.denominations, v, c), w) ==
      CountOf(m.denominations, w) - (if w == v then c else 0))
  {
    TakeViews(m.denominations, v, c, k);
  }

  /** `addMoney(20, 1)` then `addMoney(5, 2)` on an empty store: 30 THB as `[{20, 1}, {5, 2}]`, in insertion order. */
  lemma InsertionOrderScenario()
    ensures AddMoney(AddMoney(ResetMoney(), 20, 1), 5, 2) == Tender(30, [Denomination(20, 1), Denomination(5, 2)])
  {
    var m1 := AddMoney(ResetMoney(), 20, 1);
    assert m1 == Tender(20, [Denomination(20, 1)]);
    assert !HasValue(m1.denominations, 5);
  }

  /**
   Why the invariant asks for non-negative counts: `addMoney` accepts a
   negative count, and a later deduction prunes that entry together with the
   emptied one, so the running total drifts from the entries.
   */
  lemma NegativeCountBreaksTotal()
    ensures var m := AddMoney(AddMoney(ResetMoney(), 5, -1), 1, 1);
      Consistent(m) && Accepts(m, 1, 1) && !Consistent(DeductMoney(m, 1, 1))
  {
    var m := AddMoney(AddMoney(ResetMoney(), 5, -1), 1, 1);
    NegativeThenOne();
    DeductPrunesBoth(m);
    assert Sum(m.denominations) == -4;
  }

  /** `addMoney(5, -1)` then `addMoney(1, 1)` on an empty store: -4 THB as `[{5, -1}, {1, 1}]`. */
  lemma NegativeThenOne()
    ensures AddMoney(AddMoney(ResetMoney(), 5, -1), 1, 1) == Tender(-4, [Denomination(5, -1), Denomination(1, 1)])
  {
    var m0 := AddMoney(ResetMoney(), 5, -1);
    assert m0 == Tender(-5, [Denomination(5, -1)]);
    assert !HasValue(m0.denominations, 1);
  }

  /** Deducting the one 1 THB piece from `[{5, -1}, {1, 1}]` prunes both entries. */
  lemma DeductPrunesBoth(m: Tender)
    requires m == Tender(-4, [Denomination(5, -1), Denomination(1, 1)])
    ensures Accepts(m, 1, 1) && DeductMoney(m, 1, 1) == Tender(-5, [])
  {
    assert Existing(m.denominations, 1) == Some(Denomination(1, 1));
    assert Bump(m.denominations, 1, -1) == [Denomination(5, -1), Denomination(1, 0)];
    assert Take(m.denominations, 1, 1) == [];
    DeductTakes(m, 1, 1);
  }
}
